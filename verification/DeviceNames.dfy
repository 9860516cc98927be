// `ConcatenationName`: blanks in a device name become single underscores, in place.
module DeviceNames {
  import opened Common
  import opened WordLists

  /** `isspace` in the C locale, or NUL. */
  const GAPS: set<char> := {' ', '\t', '\n', '\U{000B}', '\U{000C}', '\r', '\0'}

  function Join(ws: seq<string>): string
  {
    if ws == [] then [] else if |ws| == 1 then ws[0] else ws[0] + ['_'] + Join(ws[1..])
  }

  /** The name with its blanks normalised. */
  function Normalised(line: string, gaps: set<char>): string
  {
    Join(Words(line, gaps))
  }

  /** Text that starts with a word: the word, and the rest of the words behind one underscore. */
  lemma NormalisedRun(s: string, n: nat, m: nat, gaps: set<char>)
    requires 0 < n <= m <= |s| && Free(s[..n], gaps)
    requires (forall i :: n <= i < m ==> s[i] in gaps) && (m < |s| ==> n < m && s[m] !in gaps)
    ensures Normalised(s, gaps) == s[..n] + if m == |s| then [] else ['_'] + Normalised(s[m..], gaps)
  {
    WordsRun(s, n, gaps);
    assert s[n..] == s[n..m] + s[m..];
    WordsGap(s[n..m], s[m..], gaps);
    if m < |s| {
      assert Words(s[m..], gaps) != [];
      hide Words;
      var ws := [s[..n]] + Words(s[m..], gaps);
      assert ws[1..] == Words(s[m..], gaps);
      assert s[..n] + ['_'] + Join(ws[1..]) == s[..n] + (['_'] + Join(ws[1..]));
    } else {
      assert s[m..] == [];
    }
  }

  /** The blanks of `line` at position `s` end at `t`. */
  predicate GapBetween(line: string, s: nat, t: nat, gaps: set<char>)
  {
    && s <= t <= |line|
    && (forall i :: s <= i < t ==> line[i] in gaps)
    && (t < |line| ==> line[t] !in gaps)
  }

  function GapEnd(line: string, s: nat, gaps: set<char>): (t: nat)
    requires s <= |line|
    ensures GapBetween(line, s, t, gaps)
    decreases |line| - s
  {
    if s < |line| && line[s] in gaps then GapEnd(line, s + 1, gaps) else s
  }

  /** The loop `s = sLine.erase(s)`: removes the blanks at position `s`. */
  method EraseGap(line: string, s: nat, ghost t: nat, gaps: set<char>) returns (sLine: string)
    requires GapBetween(line, s, t, gaps)
    ensures sLine == line[..s] + line[t..]
  {
    sLine := line;
    ghost var k := s;
    while s < |sLine| && sLine[s] in gaps
      invariant s <= k <= t && sLine == line[..s] + line[k..]
      decreases |sLine|
    {
      sLine := sLine[..s] + sLine[s + 1..];
      k := k + 1;
    }
  }

  /** The two scanning loops: past the word at `start`, then past the blanks behind it. */
  method ScanWord(line: string, start: nat, gaps: set<char>) returns (s: nat, t: nat)
    requires start < |line| && line[start] !in gaps
    ensures start < s <= |line| && (forall i :: start <= i < s ==> line[i] !in gaps)
    ensures GapBetween(line, s, t, gaps) && (t < |line| ==> s < t)
  {
    s := start;
    while s < |line| && line[s] !in gaps
      invariant start <= s <= |line|
      invariant forall i :: start <= i < s ==> line[i] !in gaps
    {
      s := s + 1;
    }
    t := s;
    while t < |line| && line[t] in gaps
      invariant s <= t <= |line|
      invariant forall i :: s <= i < t ==> line[i] in gaps
    {
      t := t + 1;
    }
  }

  lemma FreeSlice(line: string, from: nat, to: nat, gaps: set<char>)
    requires from <= to <= |line| && forall i :: from <= i < to ==> line[i] !in gaps
    ensures Free(line[from..to], gaps)
  {
  }

  /** What one iteration of the outer loop leaves, in terms of the words of the text. */
  lemma WordPassed(line: string, start: nat, s: nat, t: nat, gaps: set<char>)
    requires start < s <= |line| && (forall i :: start <= i < s ==> line[i] !in gaps)
    requires GapBetween(line, s, t, gaps) && (t < |line| ==> s < t)
    ensures line[..start] + Normalised(line[start..], gaps) ==
            line[..s] + if t == |line| then [] else ['_'] + Normalised(line[t..], gaps)
  {
    hide Normalised, Free;
    var text, n, m := line[start..], s - start, t - start;
    assert text[..n] == line[start..s] && text[m..] == line[t..];
    FreeSlice(line, start, s, gaps);
    assert forall i :: n <= i < m ==> text[i] in gaps by {
      assert forall i :: n <= i < m ==> text[i] == line[start + i];
    }
    NormalisedRun(text, n, m, gaps);
    Regroup(line[..start], text[..n], if t == |line| then [] else ['_'] + Normalised(line[t..], gaps));
    assert line[..s] == line[..start] + text[..n];
  }

  /** One iteration of the outer loop: passes a word, and turns the gap after it into an underscore unless it is the end. */
  method PassWord(line: string, start: nat, gaps: set<char>) returns (sLine: string, s: nat)
    requires start < |line| && line[start] !in gaps
    ensures s <= |sLine| && (s < |sLine| ==> sLine[s] !in gaps) && |sLine| - s < |line| - start
    ensures sLine[..s] + Normalised(sLine[s..], gaps) == line[..start] + Normalised(line[start..], gaps)
  {
    hide Normalised;
    var t;
    s, t := ScanWord(line, start, gaps);
    WordPassed(line, start, s, t, gaps);
    NormalisedNothing(gaps);
    sLine := line;
    ghost var tail := Normalised(line[t..], gaps);
    if t != |sLine| {
      ghost var head := line[..s] + ['_'];
      assert line[..s] + (['_'] + tail) == head + tail;
      sLine := sLine[..s] + ['_'] + sLine[s + 1..];
      s := s + 1;
      assert sLine[..s] == head && sLine[t..] == line[t..];
      sLine := EraseGap(sLine, s, t, gaps);
      Splice(head, line[t..]);
    } else {
      sLine := EraseGap(sLine, s, t, gaps);
      Splice(line[..s], []);
    }
  }

  lemma Splice(head: string, tail: string)
    ensures (head + tail)[..|head|] == head && (head + tail)[|head|..] == tail
  {
  }

  /** `ConcatenationName`, erasing and overwriting through the iterators `s` and `t`. */
  method ConcatenationName(line: string) returns (sLine: string)
    ensures sLine == Normalised(line, GAPS)
  {
    var s, gaps := 0, GAPS;
    ghost var t := GapEnd(line, s, gaps);
    sLine := EraseGap(line, s, t, gaps);
    assert line == line[..t] + line[t..] && sLine == line[t..];
    WordsGap(line[..t], line[t..], gaps);
    assert sLine[..0] + Normalised(sLine[0..], gaps) == Normalised(line, gaps);
    hide Normalised;
    while s < |sLine|
      invariant 0 <= s <= |sLine| && (s < |sLine| ==> sLine[s] !in gaps)
      invariant sLine[..s] + Normalised(sLine[s..], gaps) == Normalised(line, gaps)
      decreases |sLine| - s
    {
      sLine, s := PassWord(sLine, s, gaps);
    }
    NormalisedNothing(gaps);
    assert sLine[s..] == [] && sLine[..s] + [] == sLine;
  }

  lemma NormalisedNothing(gaps: set<char>)
    ensures Normalised([], gaps) == []
  {
  }

  lemma {:induction false} JoinFree(ws: seq<string>, gaps: set<char>)
    requires '_' !in gaps && forall w <- ws :: w != [] && Free(w, gaps)
    ensures Free(Join(ws), gaps) && (Join(ws) == [] <==> ws == [])
  {
    if ws != [] {
      assert ws[0] in ws;
      if |ws| > 1 {
        assert forall w <- ws[1..] :: w in ws;
        JoinFree(ws[1..], gaps);
      }
    }
  }

  /** Normalising twice changes nothing more, and a normalised name has no blanks. */
  lemma NormalisedIdempotent(line: string, gaps: set<char>)
    requires '_' !in gaps
    ensures Free(Normalised(line, gaps), gaps) && Normalised(Normalised(line, gaps), gaps) == Normalised(line, gaps)
  {
    WordsProper(line, gaps);
    JoinFree(Words(line, gaps), gaps);
    WordsFree(Normalised(line, gaps), gaps);
  }

  /** The name has neither blanks nor the null character. */
  lemma NoBlankIsLeft(line: string)
    ensures var name := Normalised(line, GAPS);
            forall i :: 0 <= i < |name| ==>
              name[i] !in {' ', '\t', '\n', '\U{000B}', '\U{000C}', '\r', '\0'}
  {
    NormalisedIdempotent(line, GAPS);
    var name := Normalised(line, GAPS);
    hide Normalised;
    forall i | 0 <= i < |name| ensures name[i] !in GAPS {
      assert name[i] in name;
    }
  }
}
