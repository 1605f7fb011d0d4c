/** The terminal typing effect: a text revealed one character per timer
    tick, a blinking cursor, a completion prompt, and the line counter of
    the status bar. Timers are modelled as explicit ticks; the tick period
    (`speed`, 50 ms by default) and the 530 ms blink period only fix when a
    tick happens, not what it does. */
module TerminalTyping {
  import opened Basics

  datatype Typing = Typing(displayed: string, index: nat, showCursor: bool)

  /** Nothing shown, at the start of the text, cursor visible. */
  const Initial := Typing("", 0, true)

  /** The displayed text is always the prefix of `text` up to the index. */
  predicate Valid(text: string, s: Typing) {
    s.index <= |text| && s.displayed == text[..s.index]
  }

  /** One typing tick: while characters remain, the next one is appended
      and the index advances; once the index reaches the end the effect
      schedules nothing more. */
  function Tick(text: string, s: Typing): (r: Typing)
    requires Valid(text, s)
    ensures Valid(text, r)
    ensures s.index < |text| ==> r.index == s.index + 1 && r.displayed == s.displayed + [text[s.index]]
    ensures s.index >= |text| ==> r == s
    ensures r.showCursor == s.showCursor
  {
    if s.index < |text| then
      assert text[..s.index + 1] == text[..s.index] + [text[s.index]];
      s.(displayed := s.displayed + [text[s.index]], index := s.index + 1)
    else s
  }

  /** `n` typing ticks in a row. */
  function Ticks(text: string, s: Typing, n: nat): Typing
    requires Valid(text, s)
    decreases n
  {
    if n == 0 then s else Ticks(text, Tick(text, s), n - 1)
  }

  /** After `n` ticks from the start, exactly the first `min(n, |text|)`
      characters are shown. */
  lemma {:induction false} TicksReveal(text: string, n: nat)
    ensures Valid(text, Ticks(text, Initial, n))
    ensures Ticks(text, Initial, n).index == Min(n, |text|)
    ensures Ticks(text, Initial, n).displayed == text[..Min(n, |text|)]
  {
    TicksFrom(text, Initial, n);
  }

  lemma {:induction false} TicksFrom(text: string, s: Typing, n: nat)
    requires Valid(text, s)
    ensures Valid(text, Ticks(text, s, n))
    ensures Ticks(text, s, n).index == Min(s.index + n, |text|)
    ensures Ticks(text, s, n).showCursor == s.showCursor
    decreases n
  {
    if n > 0 {
      TicksFrom(text, Tick(text, s), n - 1);
    }
  }

  /** The completion prompt is shown once the index reaches the end of the
      text, which is exactly when the whole text is displayed. */
  predicate Completed(text: string, s: Typing) {
    s.index >= |text|
  }

  lemma CompletedIffWholeText(text: string, s: Typing)
    requires Valid(text, s)
    ensures Completed(text, s) <==> s.displayed == text
  {
    if s.displayed == text {
      assert |s.displayed| == s.index;
    }
  }

  /** Typing the whole text takes exactly one tick per character: the loop
      stops when no tick is enabled any more. */
  method TypeAll(text: string) returns (s: Typing, ticks: nat)
    ensures Valid(text, s) && Completed(text, s)
    ensures s.displayed == text
    ensures ticks == |text|
  {
    s := Initial;
    ticks := 0;
    while s.index < |text|
      invariant Valid(text, s)
      invariant ticks == s.index
      decreases |text| - s.index
    {
      s := Tick(text, s);
      ticks := ticks + 1;
    }
    assert text[..|text|] == text;
  }

  /** The blink interval flips the cursor; two flips restore it. */
  function Blink(s: Typing): (r: Typing)
    ensures r.showCursor == !s.showCursor
    ensures r.displayed == s.displayed && r.index == s.index
  {
    s.(showCursor := !s.showCursor)
  }

  function Blinks(s: Typing, n: nat): Typing
    decreases n
  {
    if n == 0 then s else Blinks(Blink(s), n - 1)
  }

  /** After `n` blinks the cursor is as it started exactly when `n` is even,
      and the typed text is untouched. */
  lemma {:induction false} BlinksParity(s: Typing, n: nat)
    ensures Blinks(s, n).showCursor == (if n % 2 == 0 then s.showCursor else !s.showCursor)
    ensures Blinks(s, n).displayed == s.displayed && Blinks(s, n).index == s.index
    decreases n
  {
    if n > 0 {
      BlinksParity(Blink(s), n - 1);
    }
  }

  /** `text.split('\n')`: the pieces between line feeds, including the empty
      ones at either end. */
  function SplitLines(text: string): (lines: seq<string>)
    ensures |lines| == CountChar(text, '\n') + 1
    ensures forall i :: 0 <= i < |lines| ==> '\n' !in lines[i]
    decreases |text|
  {
    if |text| == 0 then [""]
    else
      var rest := SplitLines(text[1..]);
      if text[0] == '\n' then [""] + rest
      else
        assert forall i :: 1 <= i < |rest| ==> ([[text[0]] + rest[0]] + rest[1..])[i] == rest[i];
        [[text[0]] + rest[0]] + rest[1..]
  }

  /** The status bar's "Lines:" figure. */
  function LineCount(text: string): (n: nat)
    ensures n >= 1
    ensures n == CountChar(text, '\n') + 1
  {
    |SplitLines(text)|
  }

  /** `lines.join('\n')`. */
  function JoinLines(lines: seq<string>): string
    requires |lines| >= 1
    decreases |lines|
  {
    if |lines| == 1 then lines[0] else lines[0] + "\n" + JoinLines(lines[1..])
  }

  /** Splitting loses nothing: joining the pieces back with line feeds gives
      the text again. */
  lemma {:induction false} SplitJoin(text: string)
    ensures JoinLines(SplitLines(text)) == text
    decreases |text|
  {
    if |text| > 0 {
      var rest := SplitLines(text[1..]);
      SplitJoin(text[1..]);
      if text[0] == '\n' {
        assert SplitLines(text) == [""] + rest;
        assert text == "\n" + text[1..];
      } else {
        var lines := SplitLines(text);
        assert lines == [[text[0]] + rest[0]] + rest[1..];
        if |rest| == 1 {
          assert text == [text[0]] + text[1..];
        } else {
          assert lines[1..] == rest[1..];
          assert JoinLines(rest) == rest[0] + "\n" + JoinLines(rest[1..]);
          assert text == [text[0]] + text[1..];
        }
      }
    }
  }
}
