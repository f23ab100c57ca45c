/** A cursor over the characters of a string that tracks a line number and
    a position within the line (io/iter.rs). */
module CharIter {
  import opened Wrappers

  /** A line number and a position within that line. */
  datatype Position = Position(line: nat, column: nat)

  /** How reading `c` moves a position: a newline starts the next line,
      any other character moves one column on. */
  function Advance(p: Position, c: char): (q: Position)
    ensures c == '\n' ==> q.line == p.line + 1 && q.column == 0
    ensures c != '\n' ==> q.line == p.line && q.column == p.column + 1
  {
    if c == '\n' then Position(p.line + 1, 0) else Position(p.line, p.column + 1)
  }

  /** The position after reading every character of `s`, starting at `p`. */
  function AdvanceAll(p: Position, s: seq<char>): Position
    decreases |s|
  {
    if s == [] then p else AdvanceAll(Advance(p, s[0]), s[1..])
  }

  /** The position after reading `s` from the start of the text. */
  function PositionAfter(s: seq<char>): Position {
    AdvanceAll(Position(0, 0), s)
  }

  /** The number of newlines in `s`. */
  function Newlines(s: seq<char>): nat {
    multiset(s)['\n']
  }

  /** `n` copies of `c`. */
  function Repeat(c: char, n: nat): (s: seq<char>)
    ensures |s| == n && forall i :: 0 <= i < n ==> s[i] == c
  {
    seq(n, _ => c)
  }

  // ---------------------------------------------------------------------
  // Properties of the position functions

  /** Reading one more character moves the position by `Advance`. */
  lemma {:induction false} AdvanceAllAppend(p: Position, s: seq<char>, c: char)
    ensures AdvanceAll(p, s + [c]) == Advance(AdvanceAll(p, s), c)
    decreases |s|
  {
    if s == [] {
      assert [] + [c] == [c];
    } else {
      assert (s + [c])[1..] == s[1..] + [c];
      AdvanceAllAppend(Advance(p, s[0]), s[1..], c);
    }
  }

  /** Reading `s` adds one line per newline of `s`; without a newline it
      adds one column per character. */
  lemma {:induction false} AdvanceAllCounts(p: Position, s: seq<char>)
    ensures AdvanceAll(p, s).line == p.line + Newlines(s)
    ensures Newlines(s) == 0 ==> AdvanceAll(p, s).column == p.column + |s|
    ensures AdvanceAll(p, s).column <= p.column + |s|
    decreases |s|
  {
    if s != [] {
      assert s == [s[0]] + s[1..];
      assert multiset(s) == multiset{s[0]} + multiset(s[1..]);
      AdvanceAllCounts(Advance(p, s[0]), s[1..]);
    }
  }

  /** After a newline the column counts the characters since it. */
  lemma ColumnAfterLastNewline(prefix: seq<char>, rest: seq<char>)
    requires Newlines(rest) == 0
    ensures PositionAfter(prefix + ['\n'] + rest).column == |rest|
    ensures PositionAfter(prefix + ['\n'] + rest).line == Newlines(prefix) + 1
  {
    AdvanceAllSplit(Position(0, 0), prefix + ['\n'], rest);
    AdvanceAllAppend(Position(0, 0), prefix, '\n');
    AdvanceAllCounts(Position(0, 0), prefix);
    AdvanceAllCounts(AdvanceAll(Position(0, 0), prefix + ['\n']), rest);
  }

  /** Reading `s + t` reads `s` and then `t`. */
  lemma {:induction false} AdvanceAllSplit(p: Position, s: seq<char>, t: seq<char>)
    ensures AdvanceAll(p, s + t) == AdvanceAll(AdvanceAll(p, s), t)
    decreases |s|
  {
    if s == [] {
      assert s + t == t;
    } else {
      assert (s + t)[1..] == s[1..] + t;
      AdvanceAllSplit(Advance(p, s[0]), s[1..], t);
    }
  }

  // ---------------------------------------------------------------------
  // The iterator

  class CharWithOffsetIterator {
    var contents: seq<char>
    var pos: nat
    var line: nat
    var linePos: nat

    /** The line and position within the line the fields record. */
    function Where(): Position
      reads this
    {
      Position(line, linePos)
    }

    /** The fields describe the text read so far, `contents[..pos]`. */
    predicate Tracks()
      reads this
    {
      pos <= |contents| && Where() == PositionAfter(contents[..pos])
    }

    constructor(s: string)
      ensures contents == s && pos == 0 && Where() == Position(0, 0)
      ensures Tracks()
    {
      contents := s;
      pos := 0;
      line := 0;
      linePos := 0;
    }

    /** `read`: reports the character at `pos` and moves the line and
        position within the line past it, but leaves `pos` where it was. */
    method Read() returns (c: Option<char>)
      modifies this
      ensures contents == old(contents) && pos == old(pos)
      ensures old(pos) >= |contents| ==> c == None && Where() == old(Where())
      ensures old(pos) < |contents| ==>
        c == Some(contents[pos]) && Where() == Advance(old(Where()), contents[pos])
    {
      if pos >= |contents| {
        return None;
      }
      var ch := contents[pos];
      if ch == '\n' {
        line := line + 1;
        linePos := 0;
      } else {
        linePos := linePos + 1;
      }
      c := Some(ch);
    }

    /** `seek`: clears the fields and reads `newPos` times. Because `read`
        does not advance, every read sees the first character again. */
    method Seek(newPos: nat)
      modifies this
      ensures contents == old(contents) && pos == 0
      ensures contents == [] ==> Where() == Position(0, 0)
      ensures contents != [] ==> Where() == PositionAfter(Repeat(contents[0], newPos))
    {
      pos := 0;
      line := 0;
      linePos := 0;
      for k := 0 to newPos
        invariant contents == old(contents) && pos == 0
        invariant contents == [] ==> Where() == Position(0, 0)
        invariant contents != [] ==> Where() == PositionAfter(Repeat(contents[0], k))
      {
        var _ := Read();
        if contents != [] {
          AdvanceAllAppend(Position(0, 0), Repeat(contents[0], k), contents[0]);
          assert Repeat(contents[0], k) + [contents[0]] == Repeat(contents[0], k + 1);
        }
      }
    }

    /** `read_multiple`: reads until `buf` is full or a read fails and
        reports how many characters it stored. As `read` does not advance,
        the buffer fills with copies of one character. */
    method ReadMultiple(buf: array<char>) returns (n: nat)
      modifies this, buf
      ensures contents == old(contents) && pos == old(pos)
      ensures old(pos) >= |contents| ==> n == 0 && buf[..] == old(buf[..]) && Where() == old(Where())
      ensures old(pos) < |contents| ==>
        && n == buf.Length
        && buf[..] == Repeat(contents[pos], n)
        && Where() == AdvanceAll(old(Where()), Repeat(contents[pos], n))
    {
      ghost var start := Where();
      for k := 0 to buf.Length
        invariant contents == old(contents) && pos == old(pos)
        invariant pos >= |contents| ==> k == 0 && buf[..] == old(buf[..]) && Where() == start
        invariant pos < |contents| ==>
          && buf[..k] == Repeat(contents[pos], k)
          && Where() == AdvanceAll(start, Repeat(contents[pos], k))
      {
        var c := Read();
        match c {
          case Some(ch) =>
            buf[k] := ch;
            AdvanceAllAppend(start, Repeat(contents[pos], k), ch);
            assert Repeat(contents[pos], k) + [ch] == Repeat(contents[pos], k + 1);
            assert buf[..k + 1] == buf[..k] + [ch];
          case None =>
            return 0;
        }
      }
      n := buf.Length;
      assert buf[..] == buf[..buf.Length];
    }

    /** Whether `backtrack` completes: the `unreachable!()` fires at or past
        the end, the line counter must not go below zero on a newline, and
        `pos` must not go below zero. */
    predicate CanBacktrack()
      reads this
    {
      pos < |contents| && (contents[pos] == '\n' ==> line >= 1) && pos >= 1
    }

    /** `backtrack`: steps `pos` back over one character; stepping over a
        newline goes back a line and sets the position within the line to
        the placeholder 5000. */
    method Backtrack() returns (ok: bool)
      modifies this`pos, this`line, this`linePos
      ensures ok == old(CanBacktrack()) && contents == old(contents)
      ensures ok ==> pos == old(pos) - 1
      ensures ok && old(contents[pos]) == '\n' ==> Where() == Position(old(line) - 1, 5000)
      ensures ok && old(contents[pos]) != '\n' ==> Where() == old(Where())
      ensures !ok ==> pos == old(pos) && Where() == old(Where())
    {
      if !CanBacktrack() {
        return false;
      }
      var c := contents[pos];
      if c == '\n' {
        line := line - 1;
        linePos := 5000;
      }
      pos := pos - 1;
      ok := true;
    }

    /** `backtrack_multiple`: at or past the end it reaches `unreachable!()`;
        going back at least `pos` characters resets everything to zero;
        otherwise it backtracks `count` times, which fails when more
        newlines are stepped over than lines recorded. */
    method BacktrackMultiple(count: nat) returns (ok: bool)
      modifies this`pos, this`line, this`linePos
      ensures ok <==> old(pos) < |contents| && (count >= old(pos) || NewlinesSteppedOver(contents, old(pos), count) <= old(line))
      ensures ok && count >= old(pos) ==> pos == 0 && Where() == Position(0, 0)
      ensures ok && count < old(pos) ==>
        && pos == old(pos) - count
        && line == old(line) - NewlinesSteppedOver(contents, old(pos), count)
        && linePos == (if NewlinesSteppedOver(contents, old(pos), count) > 0 then 5000 else old(linePos))
    {
      if pos >= |contents| {
        return false;
      }
      if count >= pos {
        pos := 0;
        line := 0;
        linePos := 0;
        return true;
      }
      ghost var p0, l0, c0 := pos, line, linePos;
      for k := 0 to count
        invariant pos == p0 - k
        invariant NewlinesSteppedOver(contents, p0, k) <= l0
        invariant line == l0 - NewlinesSteppedOver(contents, p0, k)
        invariant linePos == (if NewlinesSteppedOver(contents, p0, k) > 0 then 5000 else c0)
      {
        NewlinesStepBack(contents, p0, k);
        var done := Backtrack();
        if !done {
          NewlinesGrow(contents, p0, k + 1, count);
          return false;
        }
      }
      ok := true;
    }

    // -------------------------------------------------------------------
    // The evidently intended cursor

    /** `read` as it is evidently meant to work: it reports the character
        at `pos` and moves past it, so the fields keep describing the text
        read so far. */
    method ReadAdvancing() returns (c: Option<char>)
      requires Tracks()
      modifies this
      ensures Tracks() && contents == old(contents)
      ensures old(pos) >= |contents| ==> c == None && pos == old(pos)
      ensures old(pos) < |contents| ==> c == Some(contents[old(pos)]) && pos == old(pos) + 1
    {
      if pos >= |contents| {
        return None;
      }
      var ch := contents[pos];
      if ch == '\n' {
        line := line + 1;
        linePos := 0;
      } else {
        linePos := linePos + 1;
      }
      AdvanceAllAppend(Position(0, 0), contents[..pos], ch);
      assert contents[..pos] + [ch] == contents[..pos + 1];
      pos := pos + 1;
      c := Some(ch);
    }

    /** `seek` over the advancing read: it ends at `newPos`, or at the end
        of the text, with the line and position of that point. */
    method SeekAdvancing(newPos: nat)
      modifies this
      ensures contents == old(contents) && Tracks()
      ensures pos == if newPos <= |contents| then newPos else |contents|
    {
      pos := 0;
      line := 0;
      linePos := 0;
      for k := 0 to newPos
        invariant contents == old(contents) && Tracks()
        invariant pos == if k <= |contents| then k else |contents|
      {
        var _ := ReadAdvancing();
      }
    }

    /** `backtrack` as it is evidently meant to work over the advancing
        read: it steps back over the character before `pos`, and over a
        newline it counts the characters back to the previous newline for
        the position within the line, so the fields keep describing the
        text read so far. At the start there is nothing to step back over. */
    method BacktrackRestoring() returns (ok: bool)
      requires Tracks()
      modifies this`pos, this`line, this`linePos
      ensures Tracks() && contents == old(contents)
      ensures ok <==> old(pos) >= 1
      ensures ok ==> pos == old(pos) - 1
      ensures !ok ==> pos == old(pos) && Where() == old(Where())
    {
      if pos == 0 {
        return false;
      }
      var c := contents[pos - 1];
      AdvanceAllAppend(Position(0, 0), contents[..pos - 1], c);
      assert contents[..pos - 1] + [c] == contents[..pos];
      if c == '\n' {
        var k := pos - 1;
        while k > 0 && contents[k - 1] != '\n'
          invariant 0 <= k <= pos - 1
          invariant forall i :: k <= i < pos - 1 ==> contents[i] != '\n'
          decreases k
        {
          k := k - 1;
        }
        var rest := contents[k..pos - 1];
        assert '\n' !in rest;
        assert Newlines(rest) == 0;
        if k > 0 {
          assert contents[..pos - 1] == contents[..k - 1] + ['\n'] + rest;
          ColumnAfterLastNewline(contents[..k - 1], rest);
        } else {
          assert contents[..pos - 1] == rest;
          AdvanceAllCounts(Position(0, 0), rest);
        }
        line := line - 1;
        linePos := pos - 1 - k;
      } else {
        linePos := linePos - 1;
      }
      pos := pos - 1;
      ok := true;
    }

    /** `backtrack_multiple` over the corrected backtrack: it steps back
        `count` characters, or to the start when there are fewer, and the
        fields keep describing the text read so far. */
    method BacktrackMultipleRestoring(count: nat)
      requires Tracks()
      modifies this`pos, this`line, this`linePos
      ensures Tracks() && contents == old(contents)
      ensures pos == if count >= old(pos) then 0 else old(pos) - count
    {
      if count >= pos {
        pos := 0;
        line := 0;
        linePos := 0;
        assert contents[..0] == [];
        return;
      }
      ghost var p0 := pos;
      for k := 0 to count
        invariant Tracks() && pos == p0 - k
      {
        var _ := BacktrackRestoring();
      }
    }

    /** Reading a character and then backtracking with the corrected
        methods puts the cursor back where it was. */
    method ReadThenBacktrack() returns (c: Option<char>)
      requires Tracks() && pos < |contents|
      modifies this
      ensures contents == old(contents) && pos == old(pos) && Where() == old(Where())
      ensures c == Some(contents[pos])
    {
      c := ReadAdvancing();
      var _ := BacktrackRestoring();
    }
  }

  /** The input that shows `backtrack` failing to undo a read, even the
      advancing one: over "ab" it steps `pos` back to 0 but keeps column 1,
      and over the newline of "a\n" it is refused because line 0 would go
      below zero. The corrected backtrack returns to column 0 on "ab", and
      on "a\n" steps back from line 1 to line 0, column 1. */
  method BacktrackDoesNotUndoRead() returns (pos: nat, at: Position, okNewline: bool,
                                             fixedAt: Position, fixedNewlineAt: Position)
    ensures pos == 0 && at == Position(0, 1) && at != PositionAfter([])
    ensures !okNewline
    ensures fixedAt == Position(0, 0)
    ensures fixedNewlineAt == Position(0, 1)
  {
    var it := new CharWithOffsetIterator("ab");
    var _ := it.ReadAdvancing();
    assert it.contents[..1] == "a" && "a"[1..] == [];
    var _ := it.Backtrack();
    pos, at := it.pos, it.Where();
    var nl := new CharWithOffsetIterator("a\n");
    var _ := nl.ReadAdvancing();
    okNewline := nl.Backtrack();
    var fixed := new CharWithOffsetIterator("ab");
    var _ := fixed.ReadAdvancing();
    var _ := fixed.BacktrackRestoring();
    fixedAt := fixed.Where();
    assert fixed.contents[..0] == [];
    var fixedNl := new CharWithOffsetIterator("a\n");
    var _ := fixedNl.ReadAdvancing();
    var _ := fixedNl.ReadAdvancing();
    var _ := fixedNl.BacktrackRestoring();
    fixedNewlineAt := fixedNl.Where();
    assert fixedNl.contents[..1] == "a" && "a"[1..] == [];
  }

  /** The newlines among the `count` characters that stepping back `count`
      times from `p` passes over: those at `p - count + 1` up to `p`. */
  function NewlinesSteppedOver(s: seq<char>, p: nat, count: nat): nat
    requires count <= p < |s|
  {
    Newlines(s[p - count + 1..p + 1])
  }

  /** One more step back passes over one more character. */
  lemma NewlinesStepBack(s: seq<char>, p: nat, k: nat)
    requires k < p < |s|
    ensures NewlinesSteppedOver(s, p, k + 1) == NewlinesSteppedOver(s, p, k) + (if s[p - k] == '\n' then 1 else 0)
  {
    assert s[p - k..p + 1] == [s[p - k]] + s[p - k + 1..p + 1];
    assert multiset(s[p - k..p + 1]) == multiset{s[p - k]} + multiset(s[p - k + 1..p + 1]);
  }

  /** More steps back pass over at least as many newlines. */
  lemma NewlinesGrow(s: seq<char>, p: nat, k: nat, count: nat)
    requires k <= count <= p < |s|
    ensures NewlinesSteppedOver(s, p, k) <= NewlinesSteppedOver(s, p, count)
  {
    var lo, mid := p - count + 1, p - k + 1;
    assert s[lo..p + 1] == s[lo..mid] + s[mid..p + 1];
    assert multiset(s[lo..p + 1]) == multiset(s[lo..mid]) + multiset(s[mid..p + 1]);
  }

  /** The input that shows the cursor standing still: reading "ab" twice
      with `read` reports 'a' both times and leaves `pos` at 0 with the
      position at column 2, while the advancing read reports 'a' and then
      'b'. */
  method ReadDoesNotAdvance() returns (first: Option<char>, second: Option<char>, pos: nat, at: Position,
                                        fixedSecond: Option<char>)
    ensures first == Some('a') && second == Some('a')
    ensures pos == 0 && at == Position(0, 2)
    ensures fixedSecond == Some('b')
  {
    var it := new CharWithOffsetIterator("ab");
    first := it.Read();
    second := it.Read();
    pos, at := it.pos, it.Where();
    var fixed := new CharWithOffsetIterator("ab");
    var _ := fixed.ReadAdvancing();
    fixedSecond := fixed.ReadAdvancing();
  }

  /** Seeking to 3 in "a\nb" with `seek` counts three 'a's on line 0 and
      leaves `pos` at 0; the advancing seek ends at `pos` 3 on line 1,
      column 1. */
  method SeekCountsFirstCharacter() returns (pos: nat, at: Position, fixedPos: nat, fixedAt: Position)
    ensures pos == 0 && at == Position(0, 3)
    ensures fixedPos == 3 && fixedAt == Position(1, 1)
  {
    var it := new CharWithOffsetIterator("a\nb");
    it.Seek(3);
    pos, at := it.pos, it.Where();
    assert Repeat('a', 3) == "aaa";
    assert "aaa"[1..] == "aa" && "aa"[1..] == "a" && "a"[1..] == [];
    var fixed := new CharWithOffsetIterator("a\nb");
    fixed.SeekAdvancing(3);
    fixedPos, fixedAt := fixed.pos, fixed.Where();
    assert fixed.contents[..3] == "a\nb";
  }
}
