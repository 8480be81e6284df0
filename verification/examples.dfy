/** Worked templates: what the plain loop makes of some typical and some awkward inputs. */
module Examples {
  import opened Wrappers
  import opened Exceptions
  import opened Pattern
  import opened Resolution
  import opened Render

  /** `%%s` is an escaped percent sign followed by a literal `s`: no argument is read. */
  lemma EscapedPercent(with: Option<seq<string>>)
    ensures PlainLoop("%%s", with, 0, 0) == Success("%s")
  {
    var t := "%%s";
    assert DigitsEnd(t, 1) == 1;
    assert Find(t, 0) == Some(Match(0, 2, None, Some('%')));
    assert MatchAt(t, 2).None? && MatchAt(t, 3).None?;
    assert Find(t, 2).None?;
    assert PlainLoop(t, with, 2, 0) == Success("s");
    assert PlainLoop(t, with, 0, 0) == Success(t[0..0] + "%" + "s");
    assert t[0..0] + "%" + "s" == "%s";
  }

  /** Sequential placeholders take the arguments in order. */
  lemma Sequential()
    ensures PlainLoop("a%sb%sc", Some(["X", "Y"]), 0, 0) == Success("aXbYc")
  {
    var t := "a%sb%sc";
    var w := Some(["X", "Y"]);
    assert MatchAt(t, 0).None?;
    assert DigitsEnd(t, 2) == 2;
    assert Find(t, 0) == Some(Match(1, 3, None, Some('s')));
    assert MatchAt(t, 3).None?;
    assert DigitsEnd(t, 5) == 5;
    assert Find(t, 3) == Some(Match(4, 6, None, Some('s')));
    assert MatchAt(t, 6).None? && MatchAt(t, 7).None?;
    assert Find(t, 6).None?;
    assert PlainLoop(t, w, 6, 2) == Success("c");
    assert Resolve(None, 1, w) == Success(1);
    assert PlainLoop(t, w, 3, 1) == Success(t[3..4] + "Y" + "c");
    assert t[3..4] + "Y" + "c" == "bYc";
    assert Resolve(None, 0, w) == Success(0);
    assert PlainLoop(t, w, 0, 0) == Success(t[0..1] + "X" + "bYc");
    assert t[0..1] + "X" + "bYc" == "aXbYc";
  }

  /** Explicit indices count from 1, may reorder the arguments and leave the cursor alone. */
  lemma Indexed()
    ensures PlainLoop("%2$s%1$s", Some(["a", "b"]), 0, 0) == Success("ba")
  {
    var t := "%2$s%1$s";
    var w := Some(["a", "b"]);
    assert DigitsEnd(t, 2) == 2 && DigitsEnd(t, 1) == 2 && t[1..2] == "2";
    assert Find(t, 0) == Some(Match(0, 4, Some("2"), Some('s')));
    assert DigitsEnd(t, 6) == 6 && DigitsEnd(t, 5) == 6 && t[5..6] == "1";
    assert MatchAt(t, 8).None?;
    assert Find(t, 4) == Some(Match(4, 8, Some("1"), Some('s')));
    assert Find(t, 8).None?;
    assert PlainLoop(t, w, 8, 0) == Success(t[8..]) && t[8..] == [];
    assert Decimal("2") == Decimal([]) * 10 + 2;
    assert Decimal("1") == Decimal([]) * 10 + 1;
    assert Resolve(Some("1"), 0, w) == Success(0);
    assert PlainLoop(t, w, 4, 0) == Success(t[4..4] + "a" + []);
    assert t[4..4] + "a" + [] == "a";
    assert Resolve(Some("2"), 0, w) == Success(1);
    assert PlainLoop(t, w, 0, 0) == Success(t[0..0] + "b" + "a");
    assert t[0..0] + "b" + "a" == "ba";
  }

  /** An index past the list throws `IndexOutOfBoundsException`, and so does index 0, which
      names the element before the first. */
  lemma IndexOutOfRange()
    ensures PlainLoop("%3$s", Some(["a", "b"]), 0, 0) == Failure(IndexOutOfBounds)
    ensures PlainLoop("%0$s", Some(["a", "b"]), 0, 0) == Failure(IndexOutOfBounds)
  {
    assert DigitsEnd("%3$s", 2) == 2 && DigitsEnd("%3$s", 1) == 2 && "%3$s"[1..2] == "3";
    assert Find("%3$s", 0) == Some(Match(0, 4, Some("3"), Some('s')));
    assert Decimal("3") == Decimal([]) * 10 + 3;
    assert DigitsEnd("%0$s", 2) == 2 && DigitsEnd("%0$s", 1) == 2 && "%0$s"[1..2] == "0";
    assert Find("%0$s", 0) == Some(Match(0, 4, Some("0"), Some('s')));
    assert Decimal("0") == Decimal([]) * 10 + 0;
  }

  /** The value of the ten-digit index used below. */
  lemma TenDigits()
    ensures Decimal("3000000000") == 3000000000
  {
    assert Decimal("3") == Decimal([]) * 10 + 3;
    assert "30"[..1] == "3";
    assert Decimal("30") == Decimal("3") * 10 + 0;
    assert "300"[..2] == "30";
    assert Decimal("300") == Decimal("30") * 10 + 0;
    assert "3000"[..3] == "300";
    assert Decimal("3000") == Decimal("300") * 10 + 0;
    assert "30000"[..4] == "3000";
    assert Decimal("30000") == Decimal("3000") * 10 + 0;
    assert "300000"[..5] == "30000";
    assert Decimal("300000") == Decimal("30000") * 10 + 0;
    assert "3000000"[..6] == "300000";
    assert Decimal("3000000") == Decimal("300000") * 10 + 0;
    assert "30000000"[..7] == "3000000";
    assert Decimal("30000000") == Decimal("3000000") * 10 + 0;
    assert "300000000"[..8] == "30000000";
    assert Decimal("300000000") == Decimal("30000000") * 10 + 0;
    assert "3000000000"[..9] == "300000000";
    assert Decimal("3000000000") == Decimal("300000000") * 10 + 0;
  }

  /** An index that does not fit an `int` makes `Integer.parseInt` throw first, even when
      the argument list is null. */
  lemma IndexTooLarge()
    ensures PlainLoop("%3000000000$s", None, 0, 0) == Failure(NumberFormat)
  {
    var t := "%3000000000$s";
    assert DigitsEnd(t, 11) == 11;
    assert DigitsEnd(t, 10) == 11;
    assert DigitsEnd(t, 9) == 11;
    assert DigitsEnd(t, 8) == 11;
    assert DigitsEnd(t, 7) == 11;
    assert DigitsEnd(t, 6) == 11;
    assert DigitsEnd(t, 5) == 11;
    assert DigitsEnd(t, 4) == 11;
    assert DigitsEnd(t, 3) == 11;
    assert DigitsEnd(t, 2) == 11;
    assert DigitsEnd(t, 1) == 11;
    assert t[1..11] == "3000000000";
    assert Find(t, 0) == Some(Match(0, 13, Some("3000000000"), Some('s')));
    TenDigits();
  }

  /** More sequential placeholders than arguments: the cursor runs off the list. */
  lemma TooFewArguments()
    ensures PlainLoop("%s", Some([]), 0, 0) == Failure(IndexOutOfBounds)
    ensures PlainLoop("%s", None, 0, 0) == Failure(NullPointer)
  {
    assert DigitsEnd("%s", 1) == 1;
    assert Find("%s", 0) == Some(Match(0, 2, None, Some('s')));
  }

  /** A `%` at the very end, or before a final line break, has an empty format group, so
      reading its first character throws. */
  lemma TrailingPercent(with: Option<seq<string>>)
    ensures PlainLoop("5%", with, 0, 0) == Failure(StringIndexOutOfBounds)
    ensures PlainLoop("%\n", with, 0, 0) == Failure(StringIndexOutOfBounds)
  {
    assert MatchAt("5%", 0).None?;
    assert DigitsEnd("5%", 2) == 2;
    assert Find("5%", 0) == Some(Match(1, 2, None, None));
    assert DigitsEnd("%\n", 1) == 1;
    assert Find("%\n", 0) == Some(Match(0, 1, None, None));
  }

  /** A `%` followed by something the pattern does not accept is ordinary text. */
  lemma StrayPercent(with: Option<seq<string>>)
    ensures PlainLoop("% x", with, 0, 0) == Success("% x")
  {
    var t := "% x";
    assert DigitsEnd(t, 1) == 1;
    assert MatchAt(t, 0).None? && MatchAt(t, 1).None? && MatchAt(t, 2).None? && MatchAt(t, 3).None?;
    assert Find(t, 0).None?;
  }

  /** A letter other than `s`, `d` or `%` is matched and renders as nothing; `%2$%` is a
      percent sign. */
  lemma OtherLetters(with: Option<seq<string>>)
    ensures PlainLoop("%x", with, 0, 0) == Success([])
    ensures PlainLoop("%2$%", with, 0, 0) == Success("%")
  {
    assert DigitsEnd("%x", 1) == 1;
    assert Find("%x", 0) == Some(Match(0, 2, None, Some('x')));
    assert MatchAt("%x", 2).None?;
    assert Find("%x", 2).None?;
    assert PlainLoop("%x", with, 2, 0) == Success("%x"[2..]) && "%x"[2..] == [];
    assert PlainLoop("%x", with, 0, 0) == Success("%x"[0..0] + []);
    assert "%x"[0..0] + [] == [];
    assert DigitsEnd("%2$%", 2) == 2 && DigitsEnd("%2$%", 1) == 2 && "%2$%"[1..2] == "2";
    assert MatchAt("%2$%", 4).None?;
    assert Find("%2$%", 0) == Some(Match(0, 4, Some("2"), Some('%')));
    assert Find("%2$%", 4).None?;
    assert PlainLoop("%2$%", with, 4, 0) == Success("%2$%"[4..]) && "%2$%"[4..] == [];
    assert PlainLoop("%2$%", with, 0, 0) == Success("%2$%"[0..0] + "%" + []);
    assert "%2$%"[0..0] + "%" + [] == "%";
  }

  /** Legacy mode writes the format before each literal run and each escaped `%`, but not
      before an argument, which carries its own codes. */
  lemma LegacyPrefixes()
    ensures LegacyLoop("a%sb%%", Some(["X"]), "F", 0, 0) == Success("FaXFbF%")
  {
    var t := "a%sb%%";
    var w := Some(["X"]);
    assert MatchAt(t, 0).None?;
    assert DigitsEnd(t, 2) == 2;
    assert Find(t, 0) == Some(Match(1, 3, None, Some('s')));
    assert MatchAt(t, 3).None?;
    assert DigitsEnd(t, 5) == 5;
    assert Find(t, 3) == Some(Match(4, 6, None, Some('%')));
    assert MatchAt(t, 6).None?;
    assert Find(t, 6).None?;
    assert LegacyLoop(t, w, "F", 6, 1) == Success([]);
    assert LegacyLoop(t, w, "F", 3, 1) == Success("F" + t[3..4] + "F" + "%" + []);
    assert "F" + t[3..4] + "F" + "%" + [] == "FbF%";
    assert Resolve(None, 0, w) == Success(0);
    assert LegacyLoop(t, w, "F", 0, 0) == Success("F" + t[0..1] + "X" + "FbF%");
    assert "F" + t[0..1] + "X" + "FbF%" == "FaXFbF%";
  }
}
