/**
 * Placeholder resolution and a token-level reference rendering: each token's output is
 * fixed by the token and by how many sequential placeholders come before it, rather than
 * by a cursor threaded through a loop.
 */
module Resolution {
  import opened Wrappers
  import opened Exceptions
  import opened Pattern
  import opened Tokens

  /** Format characters that substitute an argument (`case 's': case 'd':`). */
  predicate IsArgument(c: char) {
    c == 's' || c == 'd'
  }

  function DigitValue(c: char): nat {
    if IsDigit(c) then c as int - '0' as int else 0
  }

  function Pow10(n: nat): nat {
    if n == 0 then 1 else 10 * Pow10(n - 1)
  }

  /** The value `Integer.parseInt` gives a string of ASCII digits (group 1 holds nothing else):
      below `10^n` for `n` digits. */
  function Decimal(d: string): (r: nat)
    ensures r < Pow10(|d|)
  {
    if d == [] then 0 else Decimal(d[..|d| - 1]) * 10 + DigitValue(d[|d| - 1])
  }

  /** Leading zeros do not change the value, so `%01$s` names the first argument. */
  lemma {:induction false} DecimalLeadingZero(d: string)
    ensures Decimal("0" + d) == Decimal(d)
    decreases |d|
  {
    if d != [] {
      assert ("0" + d)[..|"0" + d| - 1] == "0" + d[..|d| - 1];
      DecimalLeadingZero(d[..|d| - 1]);
    } else {
      assert "0"[..0] == [];
    }
  }

  lemma {:induction false} Pow10Grows(m: nat, n: nat)
    requires m <= n
    ensures Pow10(m) <= Pow10(n)
    decreases n
  {
    if m < n {
      Pow10Grows(m, n - 1);
    }
  }

  /** An index of at most nine digits always fits an `int`: only ten or more digits can make
      `Integer.parseInt` throw. */
  lemma NineDigitsFit(d: string)
    requires |d| <= 9
    ensures Decimal(d) <= MaxInt
  {
    Pow10Grows(|d|, 9);
    assert Pow10(9) == 1000000000;
  }

  /** The list position `with.get(...)` is asked for: the explicit 1-based index minus one,
      or else the sequential cursor. */
  function Target(index: Option<string>, cursor: nat): int {
    if index.Some? then Decimal(index.value) - 1 else cursor
  }

  /** Evaluates `with.get(withIndex != null ? Integer.parseInt(withIndex) - 1 : i++)` up to
      the element's position, throwing as Java does: the index argument is parsed before the
      null receiver is noticed, and the range is checked last. */
  function Resolve(index: Option<string>, cursor: nat, with: Option<seq<string>>): (r: Result<nat, Exception>)
    ensures r.Success? <==>
      && (index.Some? ==> Decimal(index.value) <= MaxInt)
      && with.Some?
      && 0 <= Target(index, cursor) < |with.value|
    ensures r.Success? ==> r.value == Target(index, cursor)
    ensures r.Failure? && index.Some? && Decimal(index.value) > MaxInt ==> r.error == NumberFormat
    ensures r.Failure? && with.None? && !(index.Some? && Decimal(index.value) > MaxInt) ==> r.error == NullPointer
    ensures r.Failure? && with.Some? && !(index.Some? && Decimal(index.value) > MaxInt) ==> r.error == IndexOutOfBounds
  {
    if index.Some? && Decimal(index.value) > MaxInt then Failure(NumberFormat)
    else if with.None? then Failure(NullPointer)
    else
      var k := Target(index, cursor);
      if 0 <= k < |with.value| then Success(k) else Failure(IndexOutOfBounds)
  }

  /** A placeholder that draws the next argument in order (no explicit index). */
  predicate Advances(tok: Token) {
    tok.Spec? && IsArgument(tok.code) && tok.index.None?
  }

  /** How many sequential placeholders `ts` holds: the cursor after reading them. */
  function Sequentials(ts: seq<Token>): nat {
    if ts == [] then 0 else Sequentials(ts[..|ts| - 1]) + (if Advances(ts[|ts| - 1]) then 1 else 0)
  }

  lemma {:induction false} SequentialsAppend(a: seq<Token>, b: seq<Token>)
    ensures Sequentials(a + b) == Sequentials(a) + Sequentials(b)
    decreases |b|
  {
    if b == [] {
      assert a + b == a;
    } else {
      assert (a + b)[..|a + b| - 1] == a + b[..|b| - 1];
      SequentialsAppend(a, b[..|b| - 1]);
    }
  }

  /** What one token contributes, given the tokens before it: a literal and a `%%` come
      after the format prefix, an argument placeholder gives that argument's rendering,
      and any other format letter gives nothing. */
  function Piece(tok: Token, before: seq<Token>, with: Option<seq<string>>, prefix: string): Result<string, Exception> {
    match tok
    case Literal(s) => Success(prefix + s)
    case Spec(_, index, code) =>
      if IsArgument(code) then
        var k :- Resolve(index, Sequentials(before), with);
        Success(with.value[k])
      else if code == '%' then Success(prefix + "%")
      else Success([])
  }

  /** The rendering of `tokens` after `before`: the pieces in order, or the first exception;
      a scan that stopped at an empty format group throws after its last token. */
  function Expand(tokens: seq<Token>, before: seq<Token>, truncated: bool, with: Option<seq<string>>, prefix: string): Result<string, Exception>
    decreases |tokens|
  {
    if tokens == [] then
      if truncated then Failure(StringIndexOutOfBounds) else Success([])
    else
      var head :- Piece(tokens[0], before, with, prefix);
      var tail :- Expand(tokens[1..], before + [tokens[0]], truncated, with, prefix);
      Success(head + tail)
  }

  /** Sequencing of two renderings: the first exception wins, otherwise the texts join. */
  function Then(x: Result<string, Exception>, y: Result<string, Exception>): Result<string, Exception> {
    if x.Failure? then x
    else if y.Failure? then y
    else Success(x.value + y.value)
  }

  /** Rendering a concatenation renders the first part, then the second one after it. */
  lemma {:induction false} ExpandAppend(a: seq<Token>, b: seq<Token>, before: seq<Token>, truncated: bool, with: Option<seq<string>>, prefix: string)
    ensures Expand(a + b, before, truncated, with, prefix)
         == Then(Expand(a, before, false, with, prefix), Expand(b, before + a, truncated, with, prefix))
    decreases |a|
  {
    if a == [] {
      assert a + b == b;
      assert before + a == before;
      var y := Expand(b, before, truncated, with, prefix);
      if y.Success? {
        assert [] + y.value == y.value;
      }
    } else {
      assert (a + b)[0] == a[0];
      assert (a + b)[1..] == a[1..] + b;
      assert before + [a[0]] + a[1..] == before + a;
      ExpandAppend(a[1..], b, before + [a[0]], truncated, with, prefix);
      var head := Piece(a[0], before, with, prefix);
      var x := Expand(a[1..], before + [a[0]], false, with, prefix);
      var y := Expand(b, before + a, truncated, with, prefix);
      if head.Success? && x.Success? && y.Success? {
        assert head.value + (x.value + y.value) == (head.value + x.value) + y.value;
      }
    }
  }

  /** The argument placeholders of `tokens` all resolve: for the `j`-th one, its explicit
      index fits an `int`, the argument list is not null, and the argument it names (the
      explicit index minus one, or else the count of sequential placeholders before it)
      lies within the list. */
  ghost predicate AllResolve(tokens: seq<Token>, before: seq<Token>, with: Option<seq<string>>) {
    forall j :: 0 <= j < |tokens| && tokens[j].Spec? && IsArgument(tokens[j].code) ==>
      && (tokens[j].index.Some? ==> Decimal(tokens[j].index.value) <= MaxInt)
      && with.Some?
      && 0 <= Target(tokens[j].index, Sequentials(before + tokens[..j])) < |with.value|
  }

  /** A rendering succeeds exactly when the scan was not cut short and every argument
      placeholder resolves; which it is does not depend on the prefix. */
  lemma {:induction false} ExpandSucceeds(tokens: seq<Token>, before: seq<Token>, truncated: bool, with: Option<seq<string>>, prefix: string)
    ensures Expand(tokens, before, truncated, with, prefix).Success? <==> !truncated && AllResolve(tokens, before, with)
    decreases |tokens|
  {
    if tokens != [] {
      var tok := tokens[0];
      var after := before + [tok];
      ExpandSucceeds(tokens[1..], after, truncated, with, prefix);
      forall j | 1 <= j < |tokens|
        ensures before + tokens[..j] == after + tokens[1..][..j - 1]
      {
        assert tokens[..j] == [tok] + tokens[1..][..j - 1];
      }
      assert before + tokens[..0] == before;
      if AllResolve(tokens, before, with) {
        forall j | 0 <= j < |tokens[1..]| && tokens[1..][j].Spec? && IsArgument(tokens[1..][j].code)
          ensures && (tokens[1..][j].index.Some? ==> Decimal(tokens[1..][j].index.value) <= MaxInt)
                  && with.Some?
                  && 0 <= Target(tokens[1..][j].index, Sequentials(after + tokens[1..][..j])) < |with.value|
        {
          assert tokens[1..][j] == tokens[j + 1];
        }
      }
      if !AllResolve(tokens, before, with) {
        var j :| 0 <= j < |tokens| && tokens[j].Spec? && IsArgument(tokens[j].code) &&
          !(&& (tokens[j].index.Some? ==> Decimal(tokens[j].index.value) <= MaxInt)
            && with.Some?
            && 0 <= Target(tokens[j].index, Sequentials(before + tokens[..j])) < |with.value|);
        if j > 0 {
          assert tokens[1..][j - 1] == tokens[j];
        }
      }
    }
  }

  /** Two argument lists of the same shape: both null, or both present with equally many
      elements. */
  predicate SameShape(w1: Option<seq<string>>, w2: Option<seq<string>>) {
    w1.None? == w2.None? && (w1.Some? ==> |w1.value| == |w2.value|)
  }

  /** Whether a rendering throws, and which exception, depends only on the tokens and on
      the shape of the argument list, not on the renderings or on the prefix. */
  lemma {:induction false} ExpandErrorsAgree(tokens: seq<Token>, before: seq<Token>, truncated: bool,
                                             w1: Option<seq<string>>, p1: string, w2: Option<seq<string>>, p2: string)
    requires SameShape(w1, w2)
    ensures Expand(tokens, before, truncated, w1, p1).Failure? <==> Expand(tokens, before, truncated, w2, p2).Failure?
    ensures Expand(tokens, before, truncated, w1, p1).Failure? ==>
      Expand(tokens, before, truncated, w1, p1).error == Expand(tokens, before, truncated, w2, p2).error
    decreases |tokens|
  {
    if tokens != [] {
      var tok := tokens[0];
      ExpandErrorsAgree(tokens[1..], before + [tok], truncated, w1, p1, w2, p2);
      if tok.Spec? && IsArgument(tok.code) {
        assert Resolve(tok.index, Sequentials(before), w1) == Resolve(tok.index, Sequentials(before), w2);
      }
    }
  }
}
