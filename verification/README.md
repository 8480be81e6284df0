# Translatable chat components, modelled in Dafny

This project models BungeeCord's `TranslatableComponent`. That is the chat node that
looks up a translation key and replaces the placeholders in the translated template with
its argument components. The model covers five parts:

- **The placeholder pattern.** `%(?:(\d+)\$)?([A-Za-z%]|$)` is written as an index-based
  recogniser with the semantics of `java.util.regex` under the default flags (`pattern.dfy`).
  Every match it reports has the pattern's shape, with both groups where the pattern puts
  them. Wherever the pattern can match, it reports that match, with the same end. `Find`
  returns the leftmost match from a position.
- **The scan.** The `while (matcher.find(position))` loop is read as a scanner. It cuts the
  template into literal runs and placeholders (`tokens.dfy`). The scan stops at a match whose
  format group is empty, which is where the loop body throws.
- **Rendering.**
  - `resolution.dfy` gives a reference rendering of the token list. A sequential placeholder
    takes the argument numbered by the sequential placeholders before it. An explicit `n$`
    takes argument `n - 1`. Java's exceptions are modelled as errors, in the order Java
    evaluates `with.get(withIndex != null ? Integer.parseInt(withIndex) - 1 : i++)`:
    `NumberFormatException` first, then `NullPointerException`, then
    `IndexOutOfBoundsException`.
  - `render.dfy` writes out the two loops of `toPlainText` and `toLegacyText` as they run,
    with the position, the cursor `i` and the output. It proves that both produce the token
    rendering.
- **`addFormat`.** It writes the colour, then the markers of the set decorations in a fixed
  order (`style.dfy`).
- **The node's list operations.** These are the varargs constructor, `setWith` and the two
  `addWith` overloads (`chat.dfy`). `chat.dfy` also has the two render entry points. The
  locale lookup, the argument renderings and the inherited output are parameters of those
  entry points.

`laws.dfy` holds the properties that relate the pieces:

- legacy rendering with an empty format is plain rendering;
- an exact condition for success;
- the two modes throw together, with the same exception;
- a template without a placeholder renders verbatim;
- escaping every `%` as `%%` gives a template that renders back to the text.

`examples.dfy` works through concrete templates.

Two behaviours of the code are easy to miss, and the model follows the code on both:

- A `%` at the very end of the template, or followed only by a final line break, matches
  the `$` alternative. Group 2 is then empty, and `formatCode.charAt(0)` throws
  `StringIndexOutOfBoundsException`. The model fails with `StringIndexOutOfBounds` there.
- A letter other than `s`, `d` or `%` (for example `%x`) is consumed by the match and
  produces no output. The model drops it as well.

## Model

| member | source | states |
|---|---|---|
| Pattern.DigitsEnd | api/src/main/java/net/md_5/bungee/api/chat/TranslatableComponent.java:21 | The greedy `\d+` stops at the end of the longest run of ASCII digits: everything before the result is a digit, and the next character is not a digit. |
| Pattern.EndAtJava | api/src/main/java/net/md_5/bungee/api/chat/TranslatableComponent.java:21 | Java's `$` without `MULTILINE` holds at the end of the input and only at the last two positions. Away from the end, it holds only before a line terminator. It holds before a lone final line terminator, and before a final `\r\n` but not between its two characters. Two positions from the end, it holds only before `\r\n`. |
| Pattern.MatchAt | api/src/main/java/net/md_5/bungee/api/chat/TranslatableComponent.java:21 | A match at `p` starts at `p` with a `%`, is non-empty and lies inside the template. |
| Pattern.MatchAtSound | api/src/main/java/net/md_5/bungee/api/chat/TranslatableComponent.java:21 | Every reported match has the pattern's shape: `%`, then optionally digits and `$`, then one character of `[A-Za-z%]` or an empty group where `$` holds. Group 1 is a run of digits directly after the `%`, followed by `$`, with group 2 directly after that `$`. When group 1 is absent, group 2 starts right after the `%`. Group 2 is the matched character. Group 2 is empty exactly when the match ends right after `%` or after `%n$`. |
| Pattern.MatchAtComplete | api/src/main/java/net/md_5/bungee/api/chat/TranslatableComponent.java:21 | Wherever the pattern can match at `p`, the recogniser reports a match at `p` with the same end, so at most one match starts at a position. |
| Pattern.Find | api/src/main/java/net/md_5/bungee/api/chat/TranslatableComponent.java:113 | `matcher.find(position)` reports a match that starts at or after `position` and is the match the recogniser gives at its start. |
| Pattern.FindLeftmost | api/src/main/java/net/md_5/bungee/api/chat/TranslatableComponent.java:113 | The reported match is the leftmost one: no match starts between `position` and it. When nothing is reported, no match starts anywhere from `position` on. |
| Tokens.LexCovers | api/src/main/java/net/md_5/bungee/api/chat/TranslatableComponent.java:113-138 | The scan's literal runs and matches, read in order, rebuild the template up to where the scan stopped. It stops early exactly when it reaches a match whose format group is empty. |
| Tokens.LexTokens | api/src/main/java/net/md_5/bungee/api/chat/TranslatableComponent.java:113-134 | Every literal run is a non-empty gap in which no match starts. Every placeholder token is exactly the match the pattern reports at its offset. |
| Tokens.LexRunsMaximal | api/src/main/java/net/md_5/bungee/api/chat/TranslatableComponent.java:113-120 | Literal runs are maximal: a literal token is always followed by a match token, never by another literal. So each gap between matches is written as one run, and legacy mode writes the format once before it. |
| Resolution.Resolve | api/src/main/java/net/md_5/bungee/api/chat/TranslatableComponent.java:127-128 | Argument selection succeeds exactly when the explicit index fits an `int`, the list is not null and the position is inside the list. The position is the index minus one, or else the cursor. Errors come in Java's evaluation order: an overlarge index throws `NumberFormatException`, then a null list throws `NullPointerException`, and otherwise an out-of-range position throws `IndexOutOfBoundsException`. |
| Resolution.Decimal | api/src/main/java/net/md_5/bungee/api/chat/TranslatableComponent.java:128 | The value `Integer.parseInt` gives group 1 is below `10^n` for `n` digits. |
| Resolution.DecimalLeadingZero | api/src/main/java/net/md_5/bungee/api/chat/TranslatableComponent.java:128 | Leading zeros do not change the parsed index, so `%01$s` names the first argument. |
| Resolution.NineDigitsFit | api/src/main/java/net/md_5/bungee/api/chat/TranslatableComponent.java:128 | An index of at most nine digits always fits an `int`, so only ten or more digits can throw `NumberFormatException`. |
| Resolution.ExpandAppend | api/src/main/java/net/md_5/bungee/api/chat/TranslatableComponent.java:113-134 | Rendering a split token list renders the first part and then the second part, with the second part's cursor counting the first part's sequential placeholders. The first exception wins. |
| Resolution.ExpandSucceeds | api/src/main/java/net/md_5/bungee/api/chat/TranslatableComponent.java:113-138 | The token rendering succeeds if and only if the scan was not stopped by an empty format group and every `%s`/`%d` resolves its argument. |
| Resolution.ExpandErrorsAgree | api/src/main/java/net/md_5/bungee/api/chat/TranslatableComponent.java:156-184 | Whether rendering throws, and which exception, does not depend on the format prefix or on the argument texts. Only the argument count and whether the list is null matter. |
| Render.PlainLoop | api/src/main/java/net/md_5/bungee/api/chat/TranslatableComponent.java:110-138 | The plain loop as the method runs it never throws `ClassCastException`, and with a non-null list it never throws `NullPointerException`. Its full behaviour is stated by `Render.PlainLoopExpands`. |
| Render.LegacyLoop | api/src/main/java/net/md_5/bungee/api/chat/TranslatableComponent.java:153-184 | The legacy loop never throws `ClassCastException`, and with a non-null list it never throws `NullPointerException`. Its full behaviour is stated by `Render.LegacyLoopExpands`. |
| Render.PlainLoopExpands | api/src/main/java/net/md_5/bungee/api/chat/TranslatableComponent.java:110-138 | The plain loop with cursor `i` equals the reference token rendering whenever `i` counts the sequential placeholders already read. This covers the output and every exception. |
| Render.LegacyLoopExpands | api/src/main/java/net/md_5/bungee/api/chat/TranslatableComponent.java:153-184 | The legacy loop equals the token rendering in which literal runs and `%%` carry the `addFormat` prefix. |
| Style.AddFormat | api/src/main/java/net/md_5/bungee/api/chat/TranslatableComponent.java:189-197 | The format text starts with the colour, and it is exactly the colour when no decoration is set. |
| Style.AddFormatIsOrderedMarkers | api/src/main/java/net/md_5/bungee/api/chat/TranslatableComponent.java:189-197 | The format text is the colour followed by the markers of the set decorations, in the order bold, italic, underline, strikethrough, magic. |
| Style.EmittedAreTheSetOnes | api/src/main/java/net/md_5/bungee/api/chat/TranslatableComponent.java:192-196 | A decoration's marker is written if and only if that decoration is set. |
| Chat.Adopt | api/src/main/java/net/md_5/bungee/api/chat/TranslatableComponent.java:67-70 | The re-parenting loop keeps the elements in order with their content and makes this node their parent. It throws `NullPointerException` exactly when an element is null. |
| Chat.SetWith | api/src/main/java/net/md_5/bungee/api/chat/TranslatableComponent.java:65-72 | `setWith` replaces the list with one of the same length holding the given contents, each parented to this node. It throws `NullPointerException` exactly for a null list or a null element. |
| Chat.Wrap | api/src/main/java/net/md_5/bungee/api/chat/TranslatableComponent.java:45-55 | The constructor's first loop wraps strings as text components and keeps components and nulls. It throws `ClassCastException` exactly when some value is of another class. |
| Chat.New | api/src/main/java/net/md_5/bungee/api/chat/TranslatableComponent.java:42-57 | The constructor succeeds exactly when every value is a string or a component. The arguments keep their order and are parented to the new node. `ClassCastException` takes precedence over `NullPointerException`. |
| Chat.AddWith | api/src/main/java/net/md_5/bungee/api/chat/TranslatableComponent.java:91-99 | `addWith` keeps the existing arguments, treating a null list as empty, and appends the component parented to this node. A null component throws. |
| Chat.AddWithText | api/src/main/java/net/md_5/bungee/api/chat/TranslatableComponent.java:80-83 | `addWith(text)` never throws. It keeps `self`, `translate` and the existing arguments, treating a null list as empty. It appends one argument: a text component holding `text` with this node as its parent. |
| Chat.AddEachAppends | api/src/main/java/net/md_5/bungee/api/chat/TranslatableComponent.java:80-99 | Adding values one at a time succeeds exactly when each is a string or a component. It appends one argument per value, in order, parented to the node, and leaves the existing ones in place. |
| Chat.NewIsRepeatedAddWith | api/src/main/java/net/md_5/bungee/api/chat/TranslatableComponent.java:42-57 | The constructor builds the same node as an empty list followed by one `addWith` per value, and it succeeds exactly when that does. |
| Chat.Renderings | api/src/main/java/net/md_5/bungee/api/chat/TranslatableComponent.java:128 | The argument texts are the rendering of each argument in list order, or absent when the list is null. |
| Chat.ToPlainText | api/src/main/java/net/md_5/bungee/api/chat/TranslatableComponent.java:102-141 | A key the lookup misses renders as the key. Otherwise the output is the token rendering of the template with the arguments' plain texts, followed by the inherited output. |
| Chat.ToLegacyText | api/src/main/java/net/md_5/bungee/api/chat/TranslatableComponent.java:144-187 | A miss renders as the format and the key. Otherwise the output is the token rendering with the format prefix and the arguments' legacy texts, followed by the inherited output. |
| Laws.LegacyWithoutFormatIsPlain | api/src/main/java/net/md_5/bungee/api/chat/TranslatableComponent.java:144-187 | With an empty format, the legacy loop yields exactly what the plain loop yields. |
| Laws.RenderSucceeds | api/src/main/java/net/md_5/bungee/api/chat/TranslatableComponent.java:113-134 | Both loops succeed if and only if two things hold. The scan reaches no `%` or `%n$` that is followed only by the end of the input or by a final line break. Every `%s`/`%d` it reads names an argument that exists in a non-null list, with an `int`-sized index. |
| Laws.ModesFailAlike | api/src/main/java/net/md_5/bungee/api/chat/TranslatableComponent.java:102-187 | `toPlainText` and `toLegacyText` of one node throw together and with the same exception. |
| Laws.NoPlaceholderRendersVerbatim | api/src/main/java/net/md_5/bungee/api/chat/TranslatableComponent.java:110-138 | A template in which no match starts renders as itself, after the format when it is not empty, whatever the arguments. |
| Laws.EscapeRoundTrip | api/src/main/java/net/md_5/bungee/api/chat/TranslatableComponent.java:130-132 | Doubling every `%` of a text gives a template that renders back to that text, reads no argument and throws nothing, even with a null list. |
| Examples.EscapedPercent | api/src/main/java/net/md_5/bungee/api/chat/TranslatableComponent.java:130-132 | `%%s` renders as `%s` whatever the arguments. |
| Examples.Sequential | api/src/main/java/net/md_5/bungee/api/chat/TranslatableComponent.java:128 | `a%sb%sc` with arguments X and Y renders as `aXbYc`. |
| Examples.Indexed | api/src/main/java/net/md_5/bungee/api/chat/TranslatableComponent.java:127-128 | `%2$s%1$s` with a and b renders as `ba`. |
| Examples.IndexOutOfRange | api/src/main/java/net/md_5/bungee/api/chat/TranslatableComponent.java:128 | `%3$s` with two arguments, and `%0$s`, throw `IndexOutOfBoundsException`. |
| Examples.IndexTooLarge | api/src/main/java/net/md_5/bungee/api/chat/TranslatableComponent.java:128 | `%3000000000$s` throws `NumberFormatException`, even with a null list. |
| Examples.TooFewArguments | api/src/main/java/net/md_5/bungee/api/chat/TranslatableComponent.java:128 | `%s` with an empty list throws `IndexOutOfBoundsException`, and with a null list `NullPointerException`. |
| Examples.TrailingPercent | api/src/main/java/net/md_5/bungee/api/chat/TranslatableComponent.java:122-123 | `5%` and `%` followed by a final newline throw `StringIndexOutOfBoundsException`. |
| Examples.StrayPercent | api/src/main/java/net/md_5/bungee/api/chat/TranslatableComponent.java:135-138 | `% x` has no match and renders as itself. |
| Examples.OtherLetters | api/src/main/java/net/md_5/bungee/api/chat/TranslatableComponent.java:123-133 | `%x` renders as nothing, and `%2$%` renders as `%`. |
| Examples.LegacyPrefixes | api/src/main/java/net/md_5/bungee/api/chat/TranslatableComponent.java:158-177 | In legacy mode, `a%sb%%` with format F and argument X renders as `FaXFbF%`. |

## Left out

- The locale bundle is not part of this model. Lookup is a parameter returning an optional template, and a miss is the `trans == null` branch as written. A real `ResourceBundle.getString` throws `MissingResourceException` for an unknown key, and that exception is not modelled.
- `super.toPlainText` and `super.toLegacyText` (the `extra` children) are modelled as a text appended after the template's rendering. `BaseComponent` is not part of this model.
- Chat.ToPlainText and Chat.ToLegacyText assume that argument renderings and the inherited output do not throw. Both are total functions to text, so an argument that throws while rendering cannot be expressed. An example is a nested translatable component whose template ends in `%` (lines 128, 172, 140 and 186). `Laws.ModesFailAlike` holds under this assumption.
- The arguments' own rendering is modelled as an input function from component to text. For legacy text this includes what they inherit from this node. `TextComponent` and inherited style resolution are not part of this model.
- `getColor()`, the `is…()` flags and the printed form of each `ChatColor` are inputs of `addFormat`. The inheritance behind them is not modelled.
- `toString` (lines 199-203) and the Lombok accessors are left out. They are generated or diagnostic, not part of the substitution behaviour.
- The no-argument constructor is left out: it only leaves `translate` and `with` null. A null translation key is also left out, because the lookup of a null key is outside this model.
- Chat.ToPlainText: when an exception is thrown, the text already appended to the shared `StringBuilder` is not modelled. The result is the exception alone.
- Chat.ToLegacyText: when an exception is thrown, the text already appended to the shared `StringBuilder` is not modelled.
- Chat.SetWith: when a null element throws, the elements before it have already been re-parented in Java. The model reports only the exception and leaves those objects unchanged.
- Chat.New: when the constructor throws, the partly built object is not modelled.
- Chat.AddWith: with a null component, Java has already replaced a null list by an empty one before throwing. The model reports only the exception.
- Chat.New: a null varargs array makes the for-each at line 46 throw `NullPointerException`. This happens for `new TranslatableComponent(key, (Object[]) null)`, or for a bare `null` as the only argument. The model's argument list is a sequence and cannot be null, so this case is not modelled.
- Chat.AddWith: `with.add` at line 98 throws `UnsupportedOperationException` when `setWith` was given a fixed-size or unmodifiable list, such as `Arrays.asList(...)`. The model's list is a value that can always grow, so this exception is not modelled.
- Templates and keys are sequences of Unicode scalar values, not UTF-16 code units. Unpaired surrogates cannot be represented, and positions count characters rather than `char`s.
- Aliasing is not modelled: `setWith` stores the caller's list itself, so later changes through another reference are shared. The model holds lists as values.
- The cursor `i` is an `int` in Java, but it cannot overflow: it counts matches in one string.
