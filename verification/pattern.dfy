/**
 * An index-based recogniser for the placeholder pattern `%(?:(\d+)\$)?([A-Za-z%]|$)`
 * with the semantics of `java.util.regex` (default flags): `\d` is an ASCII digit and
 * `$` matches at the end of the input or just before a line terminator that ends it.
 */
module Pattern {
  import opened Wrappers

  predicate IsDigit(c: char) {
    '0' <= c <= '9'
  }

  /** The character class `[A-Za-z%]` of group 2. */
  predicate IsFormatChar(c: char) {
    'A' <= c <= 'Z' || 'a' <= c <= 'z' || c == '%'
  }

  /** Java's line terminators when `UNIX_LINES` is off. */
  predicate IsLineTerminator(c: char) {
    c == '\n' || c == '\r' || c == '\U{0085}' || c == '\U{2028}' || c == '\U{2029}'
  }

  /** Whether `$` (no `MULTILINE`) matches at index `q` of `t`: at the very end, before one
      final line terminator (but not between `\r` and `\n`), or before a final `\r\n`. */
  predicate EndAt(t: string, q: nat) {
    || q == |t|
    || (q + 1 == |t| && IsLineTerminator(t[q]) && !(t[q] == '\n' && q > 0 && t[q - 1] == '\r'))
    || (q + 2 == |t| && t[q] == '\r' && t[q + 1] == '\n')
  }

  /** Java's `$` without `MULTILINE`: it holds at the end of the input, only at the last two
      positions, only before a line terminator when not at the end, before a lone final line
      terminator, and before a final `\r\n` but not between its two characters; two positions
      from the end it holds only before `\r\n`. */
  lemma EndAtJava(t: string, q: nat)
    ensures EndAt(t, |t|)
    ensures EndAt(t, q) ==> |t| - 2 <= q <= |t| && (q < |t| ==> IsLineTerminator(t[q]))
    ensures q + 2 == |t| && t[q] == '\r' && t[q + 1] == '\n' ==> EndAt(t, q) && !EndAt(t, q + 1)
    ensures q + 1 == |t| && IsLineTerminator(t[q]) && !(t[q] == '\n' && q > 0 && t[q - 1] == '\r') ==> EndAt(t, q)
    ensures q + 2 == |t| && EndAt(t, q) ==> t[q] == '\r' && t[q + 1] == '\n'
  {
  }

  /** One match of the pattern: the span `[start, end)`, group 1 (the explicit index digits,
      `None` when the optional group did not take part) and group 2 (`None` when it matched
      the empty `$` alternative). */
  datatype Match = Match(start: nat, end: nat, index: Option<string>, code: Option<char>)

  /** The end of the longest run of digits starting at `q`. */
  function DigitsEnd(t: string, q: nat): (k: nat)
    requires q <= |t|
    ensures q <= k <= |t|
    ensures forall j :: q <= j < k ==> IsDigit(t[j])
    ensures k == |t| || !IsDigit(t[k])
    decreases |t| - q
  {
    if q < |t| && IsDigit(t[q]) then DigitsEnd(t, q + 1) else q
  }

  /** Group 2 tried at `q`: the class `[A-Za-z%]` first, then the empty `$` alternative.
      Yields the end of the match and the group's character, if any. */
  function ConversionAt(t: string, q: nat): Option<(nat, Option<char>)>
    requires q <= |t|
  {
    if q < |t| && IsFormatChar(t[q]) then Some((q + 1, Some(t[q])))
    else if EndAt(t, q) then Some((q, None))
    else None
  }

  /** The match the regex engine finds when it starts at `p`. The greedy optional group is
      tried first; only its longest digit run can be followed by `$`, since a shorter run is
      followed by a digit. If the rest fails after it, the engine backtracks to skipping it. */
  function MatchAt(t: string, p: nat): (r: Option<Match>)
    requires p <= |t|
    ensures r.Some? ==> r.value.start == p && p < r.value.end <= |t| && t[p] == '%'
  {
    if p == |t| || t[p] != '%' then None
    else
      var k := DigitsEnd(t, p + 1);
      var indexed := if p + 1 < k < |t| && t[k] == '$' then ConversionAt(t, k + 1) else None;
      if indexed.Some? then
        Some(Match(p, indexed.value.0, Some(t[p + 1..k]), indexed.value.1))
      else
        var bare := ConversionAt(t, p + 1);
        if bare.Some? then Some(Match(p, bare.value.0, None, bare.value.1)) else None
  }

  /** `Matcher.find(from)`: the leftmost match starting at or after `from`. */
  function Find(t: string, from: nat): (r: Option<Match>)
    requires from <= |t|
    ensures r.Some? ==> from <= r.value.start < r.value.end <= |t| && MatchAt(t, r.value.start) == r
    decreases |t| - from
  {
    var m := MatchAt(t, from);
    if m.Some? then m
    else if from == |t| then None
    else Find(t, from + 1)
  }

  /** `Find` reports the leftmost match: none starts between `from` and the one it reports,
      and none at all from `from` on when it reports nothing. */
  lemma {:induction false} FindLeftmost(t: string, from: nat)
    requires from <= |t|
    ensures Find(t, from).Some? ==> forall p :: from <= p < Find(t, from).value.start ==> MatchAt(t, p).None?
    ensures Find(t, from).None? ==> forall p :: from <= p <= |t| ==> MatchAt(t, p).None?
    decreases |t| - from
  {
    if MatchAt(t, from).None? && from < |t| {
      FindLeftmost(t, from + 1);
    }
  }

  /** Group 2 spans `[q, e)`: one character of the class, or empty where `$` holds. */
  predicate ConversionSpan(t: string, q: nat, e: nat) {
    || (e == q + 1 && q < |t| && IsFormatChar(t[q]))
    || (e == q && EndAt(t, q))
  }

  /** A declarative reading of the pattern: `t[p..e]` is `%`, optionally one or more
      digits and `$`, then group 2. */
  ghost predicate PatternAt(t: string, p: nat, e: nat) {
    && p < e <= |t|
    && t[p] == '%'
    && (|| ConversionSpan(t, p + 1, e)
        || exists k :: p + 1 < k < e && t[k] == '$' && AllDigits(t, p + 1, k) && ConversionSpan(t, k + 1, e))
  }

  predicate AllDigits(t: string, from: nat, to: nat)
    requires from <= to <= |t|
  {
    forall j :: from <= j < to ==> IsDigit(t[j])
  }

  /** Every match the recogniser reports is a span the pattern describes, and its groups are
      the digits before `$` and the character before the end. */
  lemma MatchAtSound(t: string, p: nat)
    requires p <= |t| && MatchAt(t, p).Some?
    ensures PatternAt(t, p, MatchAt(t, p).value.end)
    ensures var m := MatchAt(t, p).value;
      && (m.code.Some? ==> m.end >= 2 && t[m.end - 1] == m.code.value && IsFormatChar(m.code.value))
      && (m.code.None? ==> EndAt(t, m.end))
      && (m.index.Some? ==> |m.index.value| > 0 && t[p + 1..p + 1 + |m.index.value|] == m.index.value
                            && t[p + 1 + |m.index.value|] == '$')
      && (m.index.None? ==> ConversionSpan(t, p + 1, m.end))
      && (m.index.Some? ==> AllDigits(t, p + 1, p + 1 + |m.index.value|)
                            && ConversionSpan(t, p + 2 + |m.index.value|, m.end))
      && (m.code.None? <==> m.end == (if m.index.Some? then p + 2 + |m.index.value| else p + 1))
  {
    var m := MatchAt(t, p).value;
    var k := DigitsEnd(t, p + 1);
    if m.index.Some? {
      assert p + 1 < k < |t| && t[k] == '$';
      assert AllDigits(t, p + 1, k);
      assert ConversionSpan(t, k + 1, m.end);
    }
  }

  /** Conversely, wherever the pattern describes a span starting at `p`, the recogniser
      matches at `p` and ends exactly there: the pattern's match at a position is unique. */
  lemma MatchAtComplete(t: string, p: nat, e: nat)
    requires p <= |t| && PatternAt(t, p, e)
    ensures MatchAt(t, p).Some? && MatchAt(t, p).value.end == e
  {
    var k := DigitsEnd(t, p + 1);
    if ConversionSpan(t, p + 1, e) {
      // a digit at p + 1 would be neither a format character nor a line terminator
      assert !(p + 1 < k);
    } else {
      var k' :| p + 1 < k' < e && t[k'] == '$' && AllDigits(t, p + 1, k') && ConversionSpan(t, k' + 1, e);
      // the digit run cannot stop before `$` or run past it
      assert k' == k;
    }
  }
}
