/**
 * The matcher loop of `toPlainText`/`toLegacyText` seen as a scanner: the template is cut
 * into literal spans and recognised placeholders, in order, stopping at a placeholder whose
 * format group is empty (where the loop body throws).
 */
module Tokens {
  import opened Wrappers
  import opened Pattern

  datatype Token =
    /** a non-empty span between matches, copied to the output */
    | Literal(text: string)
    /** a recognised match: its text, group 1 and the (non-empty) group 2 character */
    | Spec(text: string, index: Option<string>, code: char)

  /** The tokens of a template and whether the scan stopped at an empty format group. */
  datatype Lexed = Lexed(tokens: seq<Token>, truncated: bool)

  /** The literal token for the span `[from, to)`, if that span is not empty. */
  function Lead(t: string, from: nat, to: nat): seq<Token>
    requires from <= to <= |t|
  {
    if from == to then [] else [Literal(t[from..to])]
  }

  /** Scans `t` from `position` the way the `while (matcher.find(position))` loop does. */
  function Lex(t: string, position: nat): (r: Lexed)
    requires position <= |t|
    decreases |t| - position
  {
    var found := Find(t, position);
    if found.None? then
      Lexed(Lead(t, position, |t|), false)
    else
      var m := found.value;
      if m.code.None? then Lexed(Lead(t, position, m.start), true)
      else
        var rest := Lex(t, m.end);
        Lexed(Lead(t, position, m.start) + [Spec(t[m.start..m.end], m.index, m.code.value)] + rest.tokens, rest.truncated)
  }

  /** The template text the tokens were cut from, in order. */
  function Source(ts: seq<Token>): string {
    if ts == [] then [] else ts[0].text + Source(ts[1..])
  }

  lemma {:induction false} SourceAppend(a: seq<Token>, b: seq<Token>)
    ensures Source(a + b) == Source(a) + Source(b)
    decreases |a|
  {
    if a == [] {
      assert a + b == b;
    } else {
      assert (a + b)[1..] == a[1..] + b;
      SourceAppend(a[1..], b);
    }
  }

  lemma SourceSingle(tok: Token)
    ensures Source([tok]) == tok.text
  {
    assert Source([tok]) == tok.text + Source([]);
  }

  lemma SourceLead(t: string, from: nat, to: nat)
    requires from <= to <= |t|
    ensures Source(Lead(t, from, to)) == t[from..to]
  {
    if from < to {
      SourceSingle(Literal(t[from..to]));
    }
  }

  /** Two token runs cut from adjacent spans together come from the joined span. */
  lemma SourceGlue(t: string, a: nat, b: nat, c: nat, x: seq<Token>, y: seq<Token>)
    requires a <= b <= c <= |t|
    requires Source(x) == t[a..b] && Source(y) == t[b..c]
    ensures Source(x + y) == t[a..c]
  {
    SourceAppend(x, y);
    assert t[a..b] + t[b..c] == t[a..c];
  }

  /** No match of the pattern starts anywhere in `[from, to)`. */
  predicate NoMatchIn(t: string, from: nat, to: nat)
    requires to <= |t|
  {
    forall q :: from <= q < to ==> MatchAt(t, q).None?
  }

  /** Where the `j`-th token starts in the template, when the scan began at `position`. */
  function Offset(ts: seq<Token>, j: nat, position: nat): nat
    requires j <= |ts|
  {
    position + |Source(ts[..j])|
  }

  /** Offsets into a concatenation: a token of `b` starts after all of `a`'s text. */
  lemma OffsetAppend(a: seq<Token>, b: seq<Token>, j: nat, position: nat)
    requires j <= |b|
    ensures Offset(a + b, |a| + j, position) == Offset(b, j, position + |Source(a)|)
  {
    assert (a + b)[..|a| + j] == a + b[..j];
    SourceAppend(a, b[..j]);
  }

  /** Every token after `a` in `a + b` starts where its counterpart in `b` does when the
      scan of `b` begins at the end of `a`'s text. */
  lemma OffsetShift(a: seq<Token>, b: seq<Token>, position: nat, mid: nat)
    requires mid == position + |Source(a)|
    ensures forall j :: |a| <= j <= |a + b| ==> Offset(a + b, j, position) == Offset(b, j - |a|, mid)
  {
    forall j | |a| <= j <= |a + b|
      ensures Offset(a + b, j, position) == Offset(b, j - |a|, mid)
    {
      OffsetAppend(a, b, j - |a|, position);
    }
  }

  /** The head of one scan step (the literal before the match, then the match) spans
      `[position, m.end)`, and the tokens after it are those of the scan from `m.end`. */
  lemma LexStep(t: string, position: nat)
    requires position <= |t|
    requires Find(t, position).Some? && Find(t, position).value.code.Some?
    ensures var m := Find(t, position).value;
      var head := Lead(t, position, m.start) + [Spec(t[m.start..m.end], m.index, m.code.value)];
      && Lex(t, position).tokens == head + Lex(t, m.end).tokens
      && Source(head) == t[position..m.end]
  {
    var m := Find(t, position).value;
    var s := Spec(t[m.start..m.end], m.index, m.code.value);
    SourceLead(t, position, m.start);
    SourceSingle(s);
    SourceGlue(t, position, m.start, m.end, Lead(t, position, m.start), [s]);
  }

  /** The tokens of `r`, read in order from `position`, give back the template up to where
      the scan stopped: all of it, unless it stopped at a match whose format group is empty. */
  predicate Covers(t: string, position: nat, r: Lexed) {
    var stop := position + |Source(r.tokens)|;
    && stop <= |t|
    && Source(r.tokens) == t[position..stop]
    && (r.truncated <==> stop < |t|)
    && (r.truncated ==> MatchAt(t, stop).Some? && MatchAt(t, stop).value.code.None?)
  }

  /** Tokens that cover `[position, mid)` followed by a scan that covers the template from
      `mid` cover it from `position`. */
  lemma CoversGlue(t: string, position: nat, mid: nat, head: seq<Token>, r: Lexed)
    requires position <= mid <= |t| && Source(head) == t[position..mid]
    requires Covers(t, mid, r)
    ensures Covers(t, position, Lexed(head + r.tokens, r.truncated))
  {
    var stop := mid + |Source(r.tokens)|;
    SourceGlue(t, position, mid, stop, head, r.tokens);
  }

  /** One step of the scan keeps `Covers`: the head spans `[position, m.end)` and the rest
      of the scan covers what follows. */
  lemma LexCoversStep(t: string, position: nat)
    requires position <= |t|
    requires Find(t, position).Some? && Find(t, position).value.code.Some?
    requires Covers(t, Find(t, position).value.end, Lex(t, Find(t, position).value.end))
    ensures Covers(t, position, Lex(t, position))
  {
    var m := Find(t, position).value;
    var rest := Lex(t, m.end);
    LexStep(t, position);
    var head := Lead(t, position, m.start) + [Spec(t[m.start..m.end], m.index, m.code.value)];
    assert Lex(t, position) == Lexed(head + rest.tokens, rest.truncated);
    CoversGlue(t, position, m.end, head, rest);
  }

  /** The scan from `position` covers the template from there up to where it stopped. */
  lemma {:induction false} LexCovers(t: string, position: nat)
    requires position <= |t|
    ensures Covers(t, position, Lex(t, position))
    decreases |t| - position
  {
    var found := Find(t, position);
    if found.None? {
      SourceLead(t, position, |t|);
    } else if found.value.code.None? {
      SourceLead(t, position, found.value.start);
    } else {
      LexCovers(t, found.value.end);
      LexCoversStep(t, position);
    }
  }

  /** Every literal token of `ts`, read from `position` on, is a non-empty span of the
      template at its offset in which no match starts. */
  ghost predicate LiteralsAreGaps(t: string, ts: seq<Token>, position: nat) {
    forall j :: 0 <= j < |ts| && ts[j].Literal? ==>
      var o := Offset(ts, j, position);
      && ts[j].text != []
      && o + |ts[j].text| <= |t|
      && t[o..o + |ts[j].text|] == ts[j].text
      && NoMatchIn(t, o, o + |ts[j].text|)
  }

  /** Every `Spec` token of `ts`, read from `position` on, is exactly the match the
      recogniser reports at its offset. */
  ghost predicate SpecsAreMatches(t: string, ts: seq<Token>, position: nat) {
    forall j :: 0 <= j < |ts| && ts[j].Spec? ==>
      var o := Offset(ts, j, position);
      && o < |t|
      && MatchAt(t, o) == Some(Match(o, o + |ts[j].text|, ts[j].index, Some(ts[j].code)))
  }

  lemma GapsGlue(t: string, a: seq<Token>, b: seq<Token>, position: nat, mid: nat)
    requires mid == position + |Source(a)|
    requires LiteralsAreGaps(t, a, position) && LiteralsAreGaps(t, b, mid)
    ensures LiteralsAreGaps(t, a + b, position)
  {
    OffsetShift(a, b, position, mid);
    forall j | 0 <= j < |a|
      ensures Offset(a + b, j, position) == Offset(a, j, position)
    {
      assert (a + b)[..j] == a[..j];
    }
    forall j | |a| <= j < |a + b|
      ensures (a + b)[j] == b[j - |a|]
    {
    }
  }

  lemma MatchesGlue(t: string, a: seq<Token>, b: seq<Token>, position: nat, mid: nat)
    requires mid == position + |Source(a)|
    requires SpecsAreMatches(t, a, position) && SpecsAreMatches(t, b, mid)
    ensures SpecsAreMatches(t, a + b, position)
  {
    OffsetShift(a, b, position, mid);
    forall j | 0 <= j < |a|
      ensures Offset(a + b, j, position) == Offset(a, j, position)
    {
      assert (a + b)[..j] == a[..j];
    }
    forall j | |a| <= j < |a + b|
      ensures (a + b)[j] == b[j - |a|]
    {
    }
  }

  /** The literal before a leftmost match (or the tail) is a gap. */
  lemma LeadIsGap(t: string, position: nat, to: nat)
    requires position <= to <= |t|
    requires NoMatchIn(t, position, to)
    ensures LiteralsAreGaps(t, Lead(t, position, to), position)
    ensures SpecsAreMatches(t, Lead(t, position, to), position)
  {
    var ts := Lead(t, position, to);
    if ts != [] {
      assert ts[..0] == [];
    }
  }

  /** The tokens of one scan step, up to and including its match, satisfy both predicates. */
  lemma HeadSound(t: string, position: nat)
    requires position <= |t|
    requires Find(t, position).Some? && Find(t, position).value.code.Some?
    ensures var m := Find(t, position).value;
      var head := Lead(t, position, m.start) + [Spec(t[m.start..m.end], m.index, m.code.value)];
      LiteralsAreGaps(t, head, position) && SpecsAreMatches(t, head, position)
  {
    var m := Find(t, position).value;
    var lead := Lead(t, position, m.start);
    var s := Spec(t[m.start..m.end], m.index, m.code.value);
    FindLeftmost(t, position);
    LeadIsGap(t, position, m.start);
    SourceLead(t, position, m.start);
    assert SpecsAreMatches(t, [s], m.start) by {
      assert [s][..0] == [];
    }
    assert LiteralsAreGaps(t, [s], m.start);
    GapsGlue(t, lead, [s], position, m.start);
    MatchesGlue(t, lead, [s], position, m.start);
  }

  /** Every literal token is a non-empty span of the template in which no match starts, and
      every `Spec` token is exactly the match the recogniser reports at its offset. */
  lemma {:induction false} LexTokens(t: string, position: nat)
    requires position <= |t|
    ensures LiteralsAreGaps(t, Lex(t, position).tokens, position)
    ensures SpecsAreMatches(t, Lex(t, position).tokens, position)
    decreases |t| - position
  {
    var found := Find(t, position);
    FindLeftmost(t, position);
    if found.None? {
      LeadIsGap(t, position, |t|);
    } else if found.value.code.None? {
      LeadIsGap(t, position, found.value.start);
    } else {
      var m := found.value;
      var head := Lead(t, position, m.start) + [Spec(t[m.start..m.end], m.index, m.code.value)];
      LexTokens(t, m.end);
      HeadSound(t, position);
      LexStep(t, position);
      GapsGlue(t, head, Lex(t, m.end).tokens, position, m.end);
      MatchesGlue(t, head, Lex(t, m.end).tokens, position, m.end);
    }
  }

  /** No two literal tokens are adjacent. */
  ghost predicate RunsMaximal(ts: seq<Token>) {
    forall j :: 0 <= j < |ts| - 1 && ts[j].Literal? ==> ts[j + 1].Spec?
  }

  /** A head of one scan step followed by maximal runs has maximal runs. */
  lemma RunsGlue(lead: seq<Token>, s: Token, rest: seq<Token>)
    requires |lead| <= 1 && s.Spec? && RunsMaximal(rest)
    ensures RunsMaximal(lead + [s] + rest)
  {
    var ts := lead + [s] + rest;
    var h := |lead| + 1;
    forall j | 0 <= j < |ts| - 1 && ts[j].Literal?
      ensures ts[j + 1].Spec?
    {
      // j + 1 == h cannot happen: ts[h - 1] is the match
      assert ts[h - 1] == s;
      if j + 1 < h {
        assert ts[j + 1] == s;
      } else {
        assert ts[j] == rest[j - h] && ts[j + 1] == rest[j - h + 1];
      }
    }
  }

  /** The literal runs of the scan are maximal: a literal token is always followed by a
      match, never by another literal, so legacy mode writes the format once per run. */
  lemma {:induction false} LexRunsMaximal(t: string, position: nat)
    requires position <= |t|
    ensures RunsMaximal(Lex(t, position).tokens)
    decreases |t| - position
  {
    var found := Find(t, position);
    if found.Some? && found.value.code.Some? {
      var m := found.value;
      LexRunsMaximal(t, m.end);
      LexStep(t, position);
      RunsGlue(Lead(t, position, m.start), Spec(t[m.start..m.end], m.index, m.code.value), Lex(t, m.end).tokens);
    }
  }
}
