/** The last resort of `_extract_json`: closing the brackets of truncated JSON.

    The repair only counts characters.  What it is meant to achieve is nesting in the sense
    of sections 4, 5 and 7 of RFC 8259: brackets outside strings open and close in order,
    and no string is left open. */
module JsonRepair {

  import opened Wrappers

  // ----- nesting

  datatype Mode = Outside | InString | Escaped

  /** Where a left-to-right scan of a text stands; `stack` holds the pending openers. */
  datatype State = State(stack: string, mode: Mode, ok: bool)

  const START := State("", Outside, true)

  function Opener(closer: char): char {
    if closer == ']' then '[' else '{'
  }

  function Step(st: State, c: char): State {
    match st.mode
    case Escaped => st.(mode := InString)
    case InString =>
      if c == '"' then st.(mode := Outside) else if c == '\\' then st.(mode := Escaped) else st
    case Outside =>
      if c == '"' then st.(mode := InString)
      else if c == '{' || c == '[' then st.(stack := st.stack + [c])
      else if c == '}' || c == ']' then
        if st.stack != "" && st.stack[|st.stack| - 1] == Opener(c) then st.(stack := st.stack[..|st.stack| - 1])
        else st.(ok := false)
      else st
  }

  function Scan(text: string): State {
    if text == "" then START else Step(Scan(text[..|text| - 1]), text[|text| - 1])
  }

  /** Every bracket outside strings is closed in order, and so is every string. */
  predicate WellNested(text: string) {
    Scan(text) == START
  }

  lemma ScanSnoc(text: string, c: char)
    ensures Scan(text + [c]) == Step(Scan(text), c)
  {
    assert (text + [c])[..|text + [c]| - 1] == text;
  }

  // ----- the repair

  function Count(text: string, c: char): nat {
    if text == "" then 0 else Count(text[..|text| - 1], c) + if text[|text| - 1] == c then 1 else 0
  }

  function Repeat(c: char, n: nat): (s: string)
    ensures |s| == n
  {
    if n == 0 then "" else Repeat(c, n - 1) + [c]
  }

  function Missing(text: string, opener: char, closer: char): int {
    Count(text, opener) - Count(text, closer)
  }

  function AtLeastZero(n: int): nat {
    if n > 0 then n else 0
  }

  /** What the repair leaves pending must be exactly what it then closes, and the quote it
      adds or not must leave the text outside a string. */
  predicate Closable(text: string) {
    var st := Scan(text);
    && st.ok
    && st.mode == (if Count(text, '"') % 2 != 0 then InString else Outside)
    && st.stack == Repeat('{', AtLeastZero(Missing(text, '{', '}'))) + Repeat('[', AtLeastZero(Missing(text, '[', ']')))
  }

  /** What follows the text: a quote, if those in the text are odd in number, then as many `]`
      and then as many `}` as openers of that kind exceed closers; nothing else. */
  ghost predicate Appends(text: string, tail: string) {
    exists quotes: nat, brackets: nat, braces: nat ::
      && quotes == |Places(text, '"')| % 2
      && (if |Places(text, '[')| > |Places(text, ']')| then brackets == |Places(text, '[')| - |Places(text, ']')|
          else brackets == 0)
      && (if |Places(text, '{')| > |Places(text, '}')| then braces == |Places(text, '{')| - |Places(text, '}')|
          else braces == 0)
      && IsTail(tail, quotes, brackets, braces)
  }

  predicate IsTail(tail: string, quotes: nat, brackets: nat, braces: nat) {
    && |tail| == quotes + brackets + braces
    && (forall k :: 0 <= k < quotes ==> tail[k] == '"')
    && (forall k :: quotes <= k < quotes + brackets ==> tail[k] == ']')
    && (forall k :: quotes + brackets <= k < |tail| ==> tail[k] == '}')
  }

  /** Where a character stands in a text. */
  function Places(text: string, c: char): set<nat> {
    set k: nat | k < |text| && text[k] == c
  }

  lemma {:induction false} CountIsPlaces(text: string, c: char)
    ensures Count(text, c) == |Places(text, c)|
  {
    if text == "" {
      assert Places(text, c) == {};
    } else {
      var n := |text| - 1;
      CountIsPlaces(text[..n], c);
      assert Places(text, c) == if text[n] == c then Places(text[..n], c) + {n} else Places(text[..n], c);
    }
  }

  lemma {:induction false} RepeatIs(c: char, n: nat)
    ensures forall k :: 0 <= k < n ==> Repeat(c, n)[k] == c
  {
    if n > 0 {
      RepeatIs(c, n - 1);
    }
  }

  lemma TailIs(text: string)
    ensures Appends(text, (if Count(text, '"') % 2 != 0 then ['"'] else "")
                          + Repeat(']', AtLeastZero(Missing(text, '[', ']')))
                          + Repeat('}', AtLeastZero(Missing(text, '{', '}'))))
  {
    hide Count, Repeat, Places;
    CountIsPlaces(text, '"');
    CountIsPlaces(text, '[');
    CountIsPlaces(text, ']');
    CountIsPlaces(text, '{');
    CountIsPlaces(text, '}');
    var brackets, braces := AtLeastZero(Missing(text, '[', ']')), AtLeastZero(Missing(text, '{', '}'));
    var quote := if Count(text, '"') % 2 != 0 then ['"'] else "";
    RepeatIs(']', brackets);
    RepeatIs('}', braces);
    assert IsTail(quote + Repeat(']', brackets) + Repeat('}', braces), |quote|, brackets, braces);
  }

  /** How many characters a text lacks at the least: one for each pending opener, and one to end
      a string. */
  function Debt(st: State): nat {
    |st.stack| + if st.mode == Outside then 0 else 1
  }

  lemma StepPaysOne(st: State, c: char)
    ensures Debt(Step(st, c)) >= Debt(st) - 1
  {
  }

  lemma {:induction false} CompletionPays(text: string, rest: string)
    ensures Debt(Scan(text + rest)) >= Debt(Scan(text)) - |rest|
  {
    if rest == "" {
      assert text + rest == text;
    } else {
      hide Scan, Debt, Step;
      var init, c := rest[..|rest| - 1], rest[|rest| - 1];
      CompletionPays(text, init);
      assert text + rest == text + init + [c];
      ScanSnoc(text + init, c);
      StepPaysOne(Scan(text + init), c);
    }
  }

  /** A closable text is repaired by a shortest completion: no well-nested text that begins with
      it is shorter. */
  lemma RepairIsShortest(text: string, repaired: string, other: string)
    requires Closable(text) && |repaired| == |text| + Debt(Scan(text))
    requires text <= other && WellNested(other)
    ensures |repaired| <= |other|
  {
    CompletionPays(text, other[|text|..]);
    assert text + other[|text|..] == other;
  }

  /** The repair, for every text whatever: it is tried exactly when some kind of bracket has
      more openers than closers, it appends just the missing characters, its result nests well
      if and only if the text was closable, and is then as short as can be. */
  method Repair(text: string) returns (repaired: Option<string>)
    ensures repaired.Some? <==> Missing(text, '{', '}') > 0 || Missing(text, '[', ']') > 0
    ensures repaired.Some? ==> text <= repaired.value && Appends(text, repaired.value[|text|..])
    ensures repaired.Some? ==> (WellNested(repaired.value) <==> Closable(text))
    ensures repaired.Some? && Closable(text) ==> |repaired.value| == |text| + Debt(Scan(text))
  {
    var openBraces := Missing(text, '{', '}');
    var openBrackets := Missing(text, '[', ']');
    repaired := None;
    if openBraces > 0 || openBrackets > 0 {
      var r := text;
      if Count(text, '"') % 2 != 0 {
        r := r + ['"'];
        ScanSnoc(text, '"');
      }
      ghost var quoted := r;
      r := r + Repeat(']', AtLeastZero(openBrackets));
      r := r + Repeat('}', AtLeastZero(openBraces));
      RepairIff(text, quoted, AtLeastZero(openBraces), AtLeastZero(openBrackets));
      TailIs(text);
      assert r[|text|..] == (if Count(text, '"') % 2 != 0 then ['"'] else "")
                            + Repeat(']', AtLeastZero(openBrackets)) + Repeat('}', AtLeastZero(openBraces));
      repaired := Some(r);
    }
  }

  // ----- appending closers

  lemma StepCloser(st: State, closer: char, rest: string)
    requires closer == ']' || closer == '}'
    requires st.mode == Outside
    ensures var after := Step(st, closer);
            && after.mode == Outside
            && (after.ok && after.stack == rest <==> st.ok && st.stack == rest + [Opener(closer)])
  {
    if st.stack != "" {
      assert st.stack == st.stack[..|st.stack| - 1] + [st.stack[|st.stack| - 1]];
    }
  }

  /** Outside strings, n closers leave `rest` pending, and nothing wrong, exactly when n
      matching openers were pending on top of it. */
  lemma {:induction false} ClosersOutside(text: string, closer: char, n: nat, rest: string)
    requires closer == ']' || closer == '}'
    requires Scan(text).mode == Outside
    ensures var st := Scan(text + Repeat(closer, n));
            && st.mode == Outside
            && (st.ok && st.stack == rest <==> Scan(text).ok && Scan(text).stack == rest + Repeat(Opener(closer), n))
  {
    hide Scan, Step, Opener;
    if n == 0 {
      assert text + Repeat(closer, 0) == text;
      assert rest + Repeat(Opener(closer), 0) == rest;
    } else {
      var before := text + Repeat(closer, n - 1);
      assert text + Repeat(closer, n) == before + [closer];
      ScanSnoc(before, closer);
      ClosersOutside(text, closer, n - 1, rest + [Opener(closer)]);
      StepCloser(Scan(before), closer, rest);
      RepeatFront(Opener(closer), n);
      assert rest + [Opener(closer)] + Repeat(Opener(closer), n - 1) == rest + Repeat(Opener(closer), n);
    }
  }

  lemma {:induction false} RepeatFront(c: char, n: nat)
    requires n > 0
    ensures Repeat(c, n) == [c] + Repeat(c, n - 1)
  {
    if n > 1 {
      RepeatFront(c, n - 1);
    }
  }

  /** A scan inside a string is not brought out of it by brackets. */
  lemma {:induction false} ClosersInside(text: string, closer: char, n: nat)
    requires closer == ']' || closer == '}'
    requires Scan(text).mode != Outside
    ensures Scan(text + Repeat(closer, n)).mode != Outside
  {
    hide Scan;
    if n == 0 {
      assert text + Repeat(closer, 0) == text;
    } else {
      assert text + Repeat(closer, n) == text + Repeat(closer, n - 1) + [closer];
      ScanSnoc(text + Repeat(closer, n - 1), closer);
      ClosersInside(text, closer, n - 1);
    }
  }

  lemma RepairIff(text: string, quoted: string, braces: nat, brackets: nat)
    requires braces == AtLeastZero(Missing(text, '{', '}')) && brackets == AtLeastZero(Missing(text, '[', ']'))
    requires quoted == if Count(text, '"') % 2 != 0 then text + ['"'] else text
    ensures WellNested(quoted + Repeat(']', brackets) + Repeat('}', braces)) <==> Closable(text)
  {
    ScanSnoc(text, '"');
    var half := quoted + Repeat(']', brackets);
    if Scan(quoted).mode == Outside {
      ClosersOutside(quoted, ']', brackets, Repeat('{', braces));
      ClosersOutside(half, '}', braces, "");
      assert "" + Repeat('{', braces) == Repeat('{', braces);
    } else {
      ClosersInside(quoted, ']', brackets);
      ClosersInside(half, '}', braces);
    }
  }

  // ----- what that means for a document cut short

  /** Brackets occur outside strings only, and strings hold no escapes. */
  predicate Plain(text: string) {
    '\\' !in text && forall k :: 0 <= k < |text| && text[k] in "{}[]" ==> Scan(text[..k]).mode == Outside
  }

  predicate OnlyOpeners(stack: string) {
    forall k :: 0 <= k < |stack| ==> stack[k] == '{' || stack[k] == '['
  }

  /** The counts over a text tell what is pending and whether a string is open. */
  ghost predicate Tracks(text: string, st: State) {
    && Missing(text, '{', '}') == Count(st.stack, '{')
    && Missing(text, '[', ']') == Count(st.stack, '[')
    && st.mode == (if Count(text, '"') % 2 != 0 then InString else Outside)
    && OnlyOpeners(st.stack)
  }

  lemma {:induction false} CountsMatchStack(text: string)
    requires Plain(text) && Scan(text).ok
    ensures Tracks(text, Scan(text))
  {
    if text != "" {
      hide *;
      var init, c := text[..|text| - 1], text[|text| - 1];
      assert text == init + [c];
      PlainFront(text);
      OkSoFar(init, [c]);
      CountsMatchStack(init);
      ScanSnoc(init, c);
      TracksStep(init, Scan(init), c);
    }
  }

  lemma TracksStep(text: string, st: State, c: char)
    requires Tracks(text, st) && Step(st, c).ok && c != '\\'
    requires c in "{}[]" ==> st.mode == Outside
    ensures Tracks(text + [c], Step(st, c))
  {
    hide Step, Count;
    CountSnoc(text, c);
    CountsStep(st, c);
  }

  lemma CountSnoc(text: string, c: char)
    ensures forall x :: Count(text + [c], x) == Count(text, x) + if c == x then 1 else 0
  {
    assert (text + [c])[..|text|] == text;
  }

  lemma PlainFront(text: string)
    requires text != "" && Plain(text)
    ensures Plain(text[..|text| - 1])
    ensures text[|text| - 1] != '\\'
    ensures text[|text| - 1] in "{}[]" ==> Scan(text[..|text| - 1]).mode == Outside
  {
    hide Scan;
    var init := text[..|text| - 1];
    assert forall k :: 0 <= k < |init| ==> init[..k] == text[..k] && init[k] == text[k];
  }

  /** One more character of a plain text changes the stack as it changes the counts. */
  lemma CountsStep(st: State, c: char)
    requires st.mode != Escaped && c != '\\' && Step(st, c).ok
    requires c in "{}[]" ==> st.mode == Outside
    requires OnlyOpeners(st.stack)
    ensures var after := Step(st, c);
            && Count(after.stack, '{') == Count(st.stack, '{') + (if c == '{' then 1 else if c == '}' then -1 else 0)
            && Count(after.stack, '[') == Count(st.stack, '[') + (if c == '[' then 1 else if c == ']' then -1 else 0)
            && OnlyOpeners(after.stack)
            && after.mode == (if c != '"' then st.mode else if st.mode == Outside then InString else Outside)
  {
    if c == '{' || c == '[' {
      assert (st.stack + [c])[..|st.stack|] == st.stack;
    }
  }

  /** some `{`s, then some `[`s */
  predicate BracesBelowBrackets(stack: string) {
    forall i, j :: 0 <= i < j < |stack| && stack[i] == '[' ==> stack[j] == '['
  }

  lemma {:induction false} SortedStack(stack: string)
    requires OnlyOpeners(stack)
    ensures BracesBelowBrackets(stack) <==> stack == Repeat('{', Count(stack, '{')) + Repeat('[', Count(stack, '['))
  {
    if stack != "" {
      hide *;
      var init, c := stack[..|stack| - 1], stack[|stack| - 1];
      assert stack == init + [c];
      OpenersFront(init, c);
      SortedStack(init);
      SortedSnoc(init, c);
    }
  }

  lemma OpenersFront(init: string, c: char)
    requires OnlyOpeners(init + [c])
    ensures OnlyOpeners(init) && (c == '{' || c == '[')
  {
    var stack := init + [c];
    assert stack[|init|] == c;
    assert forall k :: 0 <= k < |init| ==> init[k] == stack[k];
  }

  lemma SortedSnoc(init: string, c: char)
    requires (c == '{' || c == '[') && OnlyOpeners(init)
    requires BracesBelowBrackets(init) <==> init == Repeat('{', Count(init, '{')) + Repeat('[', Count(init, '['))
    ensures var stack := init + [c];
            BracesBelowBrackets(stack) <==> stack == Repeat('{', Count(stack, '{')) + Repeat('[', Count(stack, '['))
  {
    hide *;
    CountOpeners(init, c);
    if c == '[' {
      TopBracket(init, Count(init, '{'), Count(init, '['));
    } else {
      TopBrace(init, Count(init, '{'), Count(init, '['));
    }
  }

  lemma CountOpeners(init: string, c: char)
    ensures Count(init + [c], '{') == Count(init, '{') + if c == '{' then 1 else 0
    ensures Count(init + [c], '[') == Count(init, '[') + if c == '[' then 1 else 0
  {
    assert (init + [c])[..|init|] == init;
  }

  lemma TopBracket(init: string, braces: nat, brackets: nat)
    requires OnlyOpeners(init)
    requires BracesBelowBrackets(init) <==> init == Repeat('{', braces) + Repeat('[', brackets)
    ensures BracesBelowBrackets(init + ['[']) <==> init + ['['] == Repeat('{', braces) + Repeat('[', brackets + 1)
  {
    var stack := init + ['['];
    var sorted := Repeat('{', braces) + Repeat('[', brackets);
    assert Repeat('{', braces) + Repeat('[', brackets + 1) == sorted + ['['];
    assert stack == sorted + ['['] ==> stack[..|init|] == sorted;
    assert forall k :: 0 <= k < |init| ==> stack[k] == init[k];
    assert BracesBelowBrackets(stack) <==> BracesBelowBrackets(init);
  }

  lemma TopBrace(init: string, braces: nat, brackets: nat)
    requires braces == Count(init, '{') && brackets == Count(init, '[')
    requires OnlyOpeners(init)
    requires BracesBelowBrackets(init) <==> init == Repeat('{', braces) + Repeat('[', brackets)
    ensures BracesBelowBrackets(init + ['{']) <==> init + ['{'] == Repeat('{', braces + 1) + Repeat('[', brackets)
  {
    var stack := init + ['{'];
    if brackets == 0 {
      NoneOf(init, '[');
      assert Repeat('{', braces + 1) + Repeat('[', 0) == Repeat('{', braces) + Repeat('[', 0) + ['{'];
    } else {
      SomeOf(init, '[');
      var k :| 0 <= k < |init| && init[k] == '[';
      assert stack[k] == '[' && stack[|init|] == '{';
      var sorted := Repeat('{', braces + 1) + Repeat('[', brackets);
      assert sorted[|sorted| - 1] == '[';
    }
  }

  lemma {:induction false} NoneOf(s: string, c: char)
    requires Count(s, c) == 0
    ensures c !in s
  {
    if s != "" {
      NoneOf(s[..|s| - 1], c);
      assert s == s[..|s| - 1] + [s[|s| - 1]];
    }
  }

  lemma {:induction false} SomeOf(s: string, c: char)
    requires Count(s, c) > 0
    ensures exists k :: 0 <= k < |s| && s[k] == c
  {
    if s[|s| - 1] != c {
      SomeOf(s[..|s| - 1], c);
      var k :| 0 <= k < |s| - 1 && s[..|s| - 1][k] == c;
      assert s[k] == c;
    }
  }

  /** The main result: a plain text that is well nested so far is closed by the repair exactly
      when its pending openers are, bottom to top, some `{`s and then some `[`s, which are
      the openers the counts find missing. */
  lemma ClosableIff(text: string)
    requires Plain(text) && Scan(text).ok
    ensures Closable(text) <==> BracesBelowBrackets(Scan(text).stack)
    ensures Missing(text, '{', '}') == Count(Scan(text).stack, '{')
    ensures Missing(text, '[', ']') == Count(Scan(text).stack, '[')
  {
    CountsMatchStack(text);
    SortedStack(Scan(text).stack);
  }

  /** Every document cut short is well nested so far. */
  lemma {:induction false} CutShort(text: string, rest: string)
    requires WellNested(text + rest)
    ensures Scan(text).ok
  {
    OkSoFar(text, rest);
  }

  lemma {:induction false} OkSoFar(text: string, rest: string)
    requires Scan(text + rest).ok
    ensures Scan(text).ok
  {
    if rest == "" {
      assert text + rest == text;
    } else {
      var init := rest[..|rest| - 1];
      assert text + rest == text + init + [rest[|rest| - 1]];
      ScanSnoc(text + init, rest[|rest| - 1]);
      OkSoFar(text, init);
    }
  }

  /** An array cut short inside an object is not repaired, though it could have been. */
  lemma ArrayOfObjectsIsNotClosed()
    ensures WellNested("[{" + "}]") && !Closable("[{")
  {
    hide Scan, Step, Closable, BracesBelowBrackets;
    ScanArrayOfObjects();
    assert "[{" + "}]" == "[{}]";
    PlainPrefix();
    BracketBelowBrace();
    ClosableIff("[{");
  }

  lemma ScanArrayOfObjects()
    ensures Scan("[") == State("[", Outside, true)
    ensures Scan("[{") == State("[{", Outside, true)
    ensures Scan("[{}]") == START
  {
    hide Scan;
    EmptyScan();
    ScanSnoc("", '[');
    ScanSnoc("[", '{');
    ScanSnoc("[{", '}');
    ScanSnoc("[{}", ']');
    assert "" + ['['] == "[" && "[" + ['{'] == "[{" && "[{" + ['}'] == "[{}" && "[{}" + [']'] == "[{}]";
    assert "[{"[..1] == "[" && "["[..0] == "";
  }

  lemma PlainPrefix()
    ensures Plain("[{")
  {
    hide Scan;
    EmptyScan();
    ScanArrayOfObjects();
    assert "[{"[..0] == "" && "[{"[..1] == "[";
  }

  lemma BracketBelowBrace()
    ensures !BracesBelowBrackets("[{")
  {
    assert "[{"[0] == '[' && "[{"[1] == '{';
  }

  lemma EmptyScan()
    ensures Scan("") == START
  {
  }
}
