/**
 * Properties that relate the two render modes, the escaping of `%` and the error cases of
 * the translatable component.
 */
module Laws {
  import opened Wrappers
  import opened Exceptions
  import opened Pattern
  import opened Tokens
  import opened Resolution
  import opened Render
  import opened Style
  import opened Chat

  /** The legacy loop with an empty format prefix is the plain loop: both modes cut the
      template into the same pieces and differ only in the prefix. */
  lemma LegacyWithoutFormatIsPlain(t: string, with: Option<seq<string>>)
    ensures LegacyLoop(t, with, [], 0, 0) == PlainLoop(t, with, 0, 0)
  {
    PlainLoopExpands(t, with, 0, 0, []);
    LegacyLoopExpands(t, with, [], 0, 0, []);
  }

  /** Rendering a template throws in exactly these cases: the scan reaches a `%` whose
      format group is empty (a `%` or `%n$` followed only by the end of the input or by a
      final line break), or some `%s`/`%d` placeholder has an explicit index beyond
      `Integer.MAX_VALUE`, meets a null argument list, or names an argument outside the list
      (more sequential placeholders than arguments, an index above the count, or index 0).
      The same holds in legacy mode, whatever the prefix. */
  lemma RenderSucceeds(t: string, with: Option<seq<string>>, format: string)
    ensures PlainLoop(t, with, 0, 0).Success? <==> !Lex(t, 0).truncated && AllResolve(Lex(t, 0).tokens, [], with)
    ensures LegacyLoop(t, with, format, 0, 0).Success? <==> !Lex(t, 0).truncated && AllResolve(Lex(t, 0).tokens, [], with)
  {
    PlainLoopExpands(t, with, 0, 0, []);
    LegacyLoopExpands(t, with, format, 0, 0, []);
    ExpandSucceeds(Lex(t, 0).tokens, [], Lex(t, 0).truncated, with, []);
    ExpandSucceeds(Lex(t, 0).tokens, [], Lex(t, 0).truncated, with, format);
  }

  /** `toPlainText` and `toLegacyText` of one node throw together, with the same exception:
      with argument and inherited renderings that do not throw themselves, what fails
      depends on the template and on the argument count, not on the argument texts. */
  lemma ModesFailAlike(node: Translatable, lookup: string -> Option<string>, plainOf: Component -> string,
                       legacyOf: Component -> string, format: Format, markers: Markers, plainExtras: string, legacyExtras: string)
    ensures ToPlainText(node, lookup, plainOf, plainExtras).Failure?
        <==> ToLegacyText(node, lookup, legacyOf, format, markers, legacyExtras).Failure?
    ensures ToPlainText(node, lookup, plainOf, plainExtras).Failure? ==>
      ToPlainText(node, lookup, plainOf, plainExtras).error
        == ToLegacyText(node, lookup, legacyOf, format, markers, legacyExtras).error
  {
    var trans := lookup(node.translate);
    if trans.Some? {
      var t := trans.value;
      ExpandErrorsAgree(Lex(t, 0).tokens, [], Lex(t, 0).truncated,
                        Renderings(node.with, plainOf), [], Renderings(node.with, legacyOf), AddFormat(format, markers));
    }
  }

  /** A template in which no match starts renders as itself (after the prefix, in legacy
      mode, when it is not empty), whatever the arguments; the extras follow. */
  lemma NoPlaceholderRendersVerbatim(node: Translatable, lookup: string -> Option<string>, plainOf: Component -> string,
                                     legacyOf: Component -> string, format: Format, markers: Markers, extras: string)
    requires lookup(node.translate).Some?
    requires NoMatchIn(lookup(node.translate).value, 0, |lookup(node.translate).value|)
    ensures var t := lookup(node.translate).value;
      ToPlainText(node, lookup, plainOf, extras) == Success(t + extras)
    ensures var t := lookup(node.translate).value;
      ToLegacyText(node, lookup, legacyOf, format, markers, extras)
        == Success((if t == [] then [] else AddFormat(format, markers) + t) + extras)
  {
    var t := lookup(node.translate).value;
    FindLeftmost(t, 0);
    assert Find(t, 0).None?;
    assert t[0..] == t;
    assert PlainLoop(t, Renderings(node.with, plainOf), 0, 0) == Success(t);
  }

  /** Doubles every `%` of a text. */
  function Escape(s: string): string {
    if s == [] then [] else (if s[0] == '%' then "%%" else [s[0]]) + Escape(s[1..])
  }

  /** Putting one more character in front of a step's literal run. */
  lemma PrependStep(c: string, lead: string, piece: string, rest: Result<string, Exception>)
    ensures Then(Success(c), if rest.Failure? then rest else Success(lead + piece + rest.value))
         == (if rest.Failure? then rest else Success((c + lead) + piece + rest.value))
  {
    if rest.Success? {
      assert c + (lead + piece + rest.value) == (c + lead) + piece + rest.value;
    }
  }

  /** A character that is not `%` starts no match, so the plain loop copies it and goes on. */
  lemma PlainSkip(t: string, with: Option<seq<string>>, position: nat, i: nat)
    requires position < |t| && t[position] != '%'
    ensures PlainLoop(t, with, position, i) == Then(Success([t[position]]), PlainLoop(t, with, position + 1, i))
  {
    assert Find(t, position) == Find(t, position + 1);
    var found := Find(t, position + 1);
    var c := [t[position]];
    if found.None? {
      assert t[position..] == c + t[position + 1..];
    } else if found.value.code.Some? {
      var m := found.value;
      assert t[position..m.start] == c + t[position + 1..m.start];
      PlainLoopAtMatch(t, with, position, i);
      PlainLoopAtMatch(t, with, position + 1, i);
      var code := m.code.value;
      var resolved := Resolve(m.index, i, with);
      if !(IsArgument(code) && resolved.Failure?) {
        var piece := if IsArgument(code) then with.value[resolved.value] else if code == '%' then "%" else [];
        PrependStep(c, t[position + 1..m.start], piece,
                    PlainLoop(t, with, m.end, if IsArgument(code) && m.index.None? then i + 1 else i));
      }
    }
  }

  /** At the start of a `%%` the recogniser reports the two-character match with group 2 `%`. */
  lemma PercentPairMatches(t: string, p: nat)
    requires p + 1 < |t| && t[p] == '%' && t[p + 1] == '%'
    ensures Find(t, p) == Some(Match(p, p + 2, None, Some('%')))
  {
    assert DigitsEnd(t, p + 1) == p + 1;
  }

  /** At a `%%` the plain loop writes one `%` and goes on after the pair. */
  lemma PlainPercentPair(t: string, with: Option<seq<string>>, p: nat, i: nat)
    requires p + 1 < |t| && t[p] == '%' && t[p + 1] == '%'
    ensures PlainLoop(t, with, p, i) == Then(Success("%"), PlainLoop(t, with, p + 2, i))
  {
    PercentPairMatches(t, p);
    assert t[p..p] == [];
    var rest := PlainLoop(t, with, p + 2, i);
    if rest.Success? {
      assert [] + "%" + rest.value == "%" + rest.value;
    }
  }

  /** At the end of the template the plain loop writes nothing. */
  lemma PlainAtEnd(t: string, with: Option<seq<string>>, i: nat)
    ensures PlainLoop(t, with, |t|, i) == Success([])
  {
    assert Find(t, |t|).None?;
    assert t[|t|..] == [];
  }

  /** Escaping a text that starts with `c` is escaping `c`, then the rest. */
  lemma EscapeCons(a: string, s: string)
    requires s != []
    ensures a + Escape(s) == (a + (if s[0] == '%' then "%%" else [s[0]])) + Escape(s[1..])
  {
  }

  /** One step of the round trip: the first character of `s`, escaped, renders as itself
      before the rest. */
  lemma EscapeStep(a: string, s: string, with: Option<seq<string>>, i: nat)
    requires s != []
    requires var a' := a + (if s[0] == '%' then "%%" else [s[0]]);
      PlainLoop(a' + Escape(s[1..]), with, |a'|, i) == Success(s[1..])
    ensures PlainLoop(a + Escape(s), with, |a|, i) == Success(s)
  {
    var t := a + Escape(s);
    EscapeCons(a, s);
    if s[0] != '%' {
      PlainSkip(t, with, |a|, i);
    } else {
      PlainPercentPair(t, with, |a|, i);
    }
    assert [s[0]] + s[1..] == s;
  }

  /** Escaping a text's `%` signs as `%%` makes a template that renders back to exactly that
      text, consumes no argument and throws nothing, whatever (even null) the arguments are. */
  lemma {:induction false} EscapeRoundTrip(a: string, s: string, with: Option<seq<string>>, i: nat)
    ensures PlainLoop(a + Escape(s), with, |a|, i) == Success(s)
    decreases |s|
  {
    if s == [] {
      assert a + Escape(s) == a;
      PlainAtEnd(a, with, i);
    } else {
      EscapeRoundTrip(a + (if s[0] == '%' then "%%" else [s[0]]), s[1..], with, i);
      EscapeStep(a, s, with, i);
    }
  }
}
