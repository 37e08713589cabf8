/**
  A filter that prints the first word of each line, three times: a table automaton, the same as
  an object, and nested loops. The loops print one line feed more.
  */
module LineFilter {

  // ------------------------------------------------------------------ what it is for

  /** Where the first line ends. */
  function LineEnd(text: string): (n: nat)
    ensures n <= |text| && (n < |text| ==> text[n] == '\n')
    ensures forall i :: 0 <= i < n ==> text[i] != '\n'
  {
    if text == [] || text[0] == '\n' then 0 else 1 + LineEnd(text[1..])
  }

  function SkipBlanks(line: string): string {
    if line != [] && line[0] == ' ' then SkipBlanks(line[1..]) else line
  }

  /** Up to the next blank. */
  function Word(line: string): string {
    if line == [] || line[0] == ' ' then [] else [line[0]] + Word(line[1..])
  }

  function FirstWord(line: string): string { Word(SkipBlanks(line)) }

  /** It is what lies between leading blanks and the next blank or the end; empty only if the line is blank. */
  lemma {:induction false} FirstWordMeans(line: string) returns (blanks: string, rest: string)
    ensures line == blanks + FirstWord(line) + rest
    ensures (forall i :: 0 <= i < |blanks| ==> blanks[i] == ' ') && ' ' !in FirstWord(line)
    ensures rest == [] || rest[0] == ' '
    ensures FirstWord(line) == [] ==> rest == []
  {
    if line != [] && line[0] == ' ' {
      var more;
      more, rest := FirstWordMeans(line[1..]);
      blanks := [' '] + more;
      assert line == [' '] + line[1..];
    } else {
      blanks := [];
      rest := AfterWord(line);
    }
  }

  lemma {:induction false} AfterWord(line: string) returns (rest: string)
    ensures line == Word(line) + rest && ' ' !in Word(line)
    ensures rest == [] || rest[0] == ' '
    ensures line != [] && line[0] != ' ' ==> Word(line) != []
  {
    if line == [] || line[0] == ' ' {
      rest := line;
    } else {
      rest := AfterWord(line[1..]);
      var c, word := line[0], Word(line[1..]);
      assert line == [c] + line[1..] && Word(line) == [c] + word;
      hide Word;
      assert [c] + (word + rest) == ([c] + word) + rest;
    }
  }

  /** The first word of each line, with the line feeds there are. */
  function FirstWords(text: string): string
    decreases |text|, 1
  {
    FirstWord(text[..LineEnd(text)]) + NextLines(text)
  }

  /** What comes after the first line. */
  function NextLines(text: string): string
    decreases |text|, 0
  {
    var n := LineEnd(text);
    if n < |text| then ['\n'] + FirstWords(text[n + 1..]) else []
  }

  /** Lines are what line feeds separate. */
  lemma LinesSeparately(line: string, text: string)
    requires '\n' !in line
    ensures FirstWords(line) == FirstWord(line)
    ensures FirstWords(line + ['\n'] + text) == FirstWord(line) + ['\n'] + FirstWords(text)
  {
    NoFeed(line, []);
    NoFeed(line, ['\n'] + text);
    assert line + [] == line && line[..|line|] == line;
    var all := line + ['\n'] + text;
    assert all == line + (['\n'] + text);
    assert all[..|line|] == line && all[|line| + 1..] == text;
  }

  lemma {:induction false} NoFeed(line: string, after: string)
    requires '\n' !in line && (after != [] ==> after[0] == '\n')
    ensures LineEnd(line + after) == |line|
  {
    if line == [] {
      assert line + after == after;
    } else {
      assert (line + after)[1..] == line[1..] + after;
      NoFeed(line[1..], after);
    }
  }

  // ------------------------------------------------------------------ the table

  datatype State = Before | Inside | After

  datatype Branch = Branch(newState: State, shouldPutchar: bool)

  /** Rows for the three states, columns for a blank, a line feed and anything else. */
  const TABLE: seq<seq<Branch>> := [
    [Branch(Before, false), Branch(Before, true), Branch(Inside, true)],
    [Branch(After, false), Branch(Before, true), Branch(Inside, true)],
    [Branch(After, false), Branch(Before, true), Branch(After, false)]]

  function Row(state: State): nat { match state case Before => 0 case Inside => 1 case After => 2 }

  function Column(c: char): nat { if c == ' ' then 0 else if c == '\n' then 1 else 2 }

  function Entry(state: State, c: char): Branch { TABLE[Row(state)][Column(c)] }

  /** What the automaton prints from a state on. */
  function Emit(state: State, text: string): string
    decreases text
  {
    if text == [] then []
    else
      var b := Entry(state, text[0]);
      (if b.shouldPutchar then [text[0]] else []) + Emit(b.newState, text[1..])
  }

  lemma Unfold(text: string)
    requires text != [] && text[0] != '\n'
    ensures LineEnd(text) == 1 + LineEnd(text[1..])
    ensures text[..LineEnd(text)] == [text[0]] + text[1..][..LineEnd(text[1..])]
    ensures NextLines(text) == NextLines(text[1..])
  {
  }

  /** Each state prints what its name says. */
  lemma {:induction false} EmitMeans(text: string)
    ensures Emit(Before, text) == FirstWords(text)
    ensures Emit(Inside, text) == Word(text[..LineEnd(text)]) + NextLines(text)
    ensures Emit(After, text) == NextLines(text)
  {
    if text != [] {
      var c, rest := text[0], text[1..];
      EmitMeans(rest);
      if c == '\n' {
        assert text[..0] == [];
      } else {
        Unfold(text);
        var line, more := text[..LineEnd(text)], rest[..LineEnd(rest)];
        assert line[0] == c && line[1..] == more;
        if c != ' ' {
          assert [c] + (Word(more) + NextLines(rest)) == ([c] + Word(more)) + NextLines(rest);
        }
      }
    }
  }

  // ------------------------------------------------------------------ the automaton

  /** One step: the state it leaves, and the output with what it prints. */
  method Step(state0: State, c: char, out0: string) returns (state: State, out: string)
    ensures forall rest: string :: out + Emit(state, rest) == out0 + Emit(state0, [c] + rest)
  {
    var b := TABLE[Row(state0)][Column(c)];
    state, out := b.newState, out0;
    if b.shouldPutchar {
      out := out + [c];
    }
    forall rest: string
      ensures out + Emit(state, rest) == out0 + Emit(state0, [c] + rest)
    {
      assert ([c] + rest)[1..] == rest;
    }
  }

  method Automaton(text: string) returns (out: string)
    ensures out == FirstWords(text)
  {
    var state := Before;
    out := [];
    for i := 0 to |text|
      invariant out + Emit(state, text[i..]) == Emit(Before, text)
    {
      assert text[i..] == [text[i]] + text[i + 1..];
      state, out := Step(state, text[i], out);
    }
    EmitMeans(text);
  }

  // ------------------------------------------------------------------ the object

  class StateMachine {
    var state: State
    /** What has been printed. */
    var output: string

    constructor ()
      ensures state == Before && output == []
    {
      state, output := Before, [];
    }

    method FeedChar(c: char)
      modifies this
      ensures forall rest: string :: output + Emit(state, rest) == old(output) + Emit(old(state), [c] + rest)
    {
      ghost var state0, out0 := state, output;
      var b := TABLE[Row(state)][Column(c)];
      state := b.newState;
      if b.shouldPutchar {
        output := output + [c];
      }
      forall rest: string
        ensures output + Emit(state, rest) == out0 + Emit(state0, [c] + rest)
      {
        assert ([c] + rest)[1..] == rest;
      }
    }
  }

  method ObjectFilter(text: string) returns (out: string)
    ensures out == FirstWords(text)
  {
    var machine := new StateMachine();
    for i := 0 to |text|
      invariant machine.output + Emit(machine.state, text[i..]) == Emit(Before, text)
    {
      assert text[i..] == [text[i]] + text[i + 1..];
      machine.FeedChar(text[i]);
    }
    EmitMeans(text);
    out := machine.output;
  }

  // ------------------------------------------------------------------ nested loops

  datatype Read = Eof | Char(c: char)

  function Get(text: string, at: nat): Read {
    if at < |text| then Char(text[at]) else Eof
  }

  /** Where states print alike: before a word and in it, in a word and after it. */
  lemma StatesAgree(text: string, at: nat)
    requires at <= |text|
    ensures Get(text, at) != Char(' ') ==> Emit(Before, text[at..]) == Emit(Inside, text[at..])
    ensures Get(text, at) in {Eof, Char(' '), Char('\n')} ==> Emit(Inside, text[at..]) == Emit(After, text[at..])
  {
  }

  lemma EmitOne(state: State, text: string, at: nat)
    requires at < |text|
    ensures var b := Entry(state, text[at]);
      Emit(state, text[at..]) == (if b.shouldPutchar then [text[at]] else []) + Emit(b.newState, text[at + 1..])
  {
    assert text[at..][1..] == text[at + 1..];
  }

  /** The loops print a line feed after every line, also after the last, which has none. */
  method Traditional(text: string) returns (out: string)
    ensures out == FirstWords(text) + ['\n']
  {
    hide Emit, FirstWords;
    ghost var total := Emit(Before, text);
    out := [];
    var at, going := 0, true;
    assert text[0..] == text;
    while going
      invariant going ==> at <= |text| && out + Emit(Before, text[at..]) == total
      invariant !going ==> out == total + ['\n']
      decreases if going then |text| - at + 1 else 0
    {
      ghost var lineStart := at;
      var c := Get(text, at);
      while c == Char(' ')
        invariant lineStart <= at <= |text| && c == Get(text, at)
        invariant out + Emit(Before, text[at..]) == total
        decreases |text| - at
      {
        EmitOne(Before, text, at);
        at := at + 1;
        c := Get(text, at);
      }
      StatesAgree(text, at);
      while c != Eof && c != Char(' ') && c != Char('\n')
        invariant lineStart <= at <= |text| && c == Get(text, at)
        invariant out + Emit(Inside, text[at..]) == total
        decreases |text| - at
      {
        EmitOne(Inside, text, at);
        out := out + [c.c];
        at := at + 1;
        c := Get(text, at);
      }
      StatesAgree(text, at);
      ghost var before := out;
      out := out + ['\n'];
      while c != Eof && c != Char('\n')
        invariant lineStart <= at <= |text| && c == Get(text, at)
        invariant before + Emit(After, text[at..]) == total
        decreases |text| - at
      {
        EmitOne(After, text, at);
        at := at + 1;
        c := Get(text, at);
      }
      if c == Eof {
        EmitNothing(After);
        assert text[at..] == [] && before + [] == before;
        going := false;
      } else {
        EmitOne(After, text, at);
        at := at + 1;
      }
    }
    EmitMeans(text);
  }

  lemma EmitNothing(state: State)
    ensures Emit(state, []) == []
  {
  }
}
