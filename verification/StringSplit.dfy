// The two implementations of `StringSplit`.
module StringSplitters {
  import opened Common
  import opened WordLists

  /** `std::string::find(c, from)`, None standing for npos. */
  function Find(s: string, c: char, from: nat): (r: Option<nat>)
    ensures r.Some? ==> from <= r.value < |s| && s[r.value] == c && forall i :: from <= i < r.value ==> s[i] != c
    ensures r.None? ==> forall i :: from <= i < |s| ==> s[i] != c
    decreases |s| - from
  {
    if from >= |s| then None else if s[from] == c then Some(from) else Find(s, c, from + 1)
  }

  function Chars(sep: string): set<char>
  {
    set c | c in sep
  }

  /** `StringSplit(str, delim)`: walks from separator to separator. */
  method StringSplitByChar(str: string, delim: char) returns (elems: seq<string>)
    ensures elems == Words(str, {delim})
  {
    hide Words, Find;
    elems := [];
    var previous := 0;
    var current := Find(str, delim, 0);
    while current.Some?
      invariant 0 <= previous <= |str| && current == Find(str, delim, previous)
      invariant elems + Words(str[previous..], {delim}) == Words(str, {delim})
      decreases |str| - previous
    {
      var c := current.value;
      ghost var rest := str[previous..];
      assert rest[c - previous + 1..] == str[c + 1..];
      assert rest[..c - previous] == str[previous..c];
      WordAt(rest, delim, c - previous);
      if c > previous {
        elems := elems + [str[previous..c]];
      }
      previous := c + 1;
      current := Find(str, delim, previous);
    }
    WordsFree(str[previous..], {delim});
    if previous != |str| {
      elems := elems + [str[previous..]];
    }
  }

  /** The part of a text before its first separator is a word unless it is empty; the words of the rest follow. */
  lemma WordAt(s: string, delim: char, n: nat)
    requires n < |s| && s[n] == delim && forall i :: 0 <= i < n ==> s[i] != delim
    ensures Words(s, {delim}) == (if n > 0 then [s[..n]] else []) + Words(s[n + 1..], {delim})
  {
    assert s == s[..n] + [delim] + s[n + 1..];
    WordsSplit(s[..n], delim, s[n + 1..], {delim});
    WordsFree(s[..n], {delim});
  }

  /** The first separator of `strs`, if any: the loop over `sep` in `StringToken` keeps the least position found. */
  method FirstSeparator(strs: string, sep: string) returns (seat: Option<nat>)
    ensures seat.Some? ==> seat.value < |strs| && strs[seat.value] in Chars(sep) && Free(strs[..seat.value], Chars(sep))
    ensures seat.None? ==> Free(strs, Chars(sep))
  {
    seat := None;
    var k := 0;
    while k < |sep|
      invariant 0 <= k <= |sep|
      invariant seat.Some? ==> seat.value < |strs| && strs[seat.value] in Chars(sep[..k])
      invariant forall i :: 0 <= i < (if seat.Some? then seat.value else |strs|) ==> strs[i] !in Chars(sep[..k])
    {
      assert Chars(sep[..k + 1]) == Chars(sep[..k]) + {sep[k]} by {
        assert sep[..k + 1] == sep[..k] + [sep[k]];
      }
      var temp := Find(strs, sep[k], 0);
      if temp.Some? {
        seat := if seat.None? || temp.value < seat.value then temp else seat;
      }
      k := k + 1;
    }
    assert sep[..|sep|] == sep;
  }

  /**
   * `StringToken`: takes the first word off the text. It calls itself when the text starts with a separator. `size` is
   * the returned token size, None standing for npos.
   */
  method StringToken(strs: string, sep: string) returns (size: Option<nat>, rest: string, token: string)
    ensures var words := Words(strs, Chars(sep));
            if words == [] then size == None && token == [] && Words(rest, Chars(sep)) == []
            else size == Some(|token|) && [token] + Words(rest, Chars(sep)) == words
    ensures |rest| < |strs| || strs == rest == []
    decreases |strs|
  {
    if strs == [] {
      return None, strs, [];
    }
    var seat := FirstSeparator(strs, sep);
    if seat.Some? {
      var n := seat.value;
      token := strs[..n];
      rest := strs[n + 1..];
      assert strs == token + [strs[n]] + rest;
      WordsSplit(token, strs[n], rest, Chars(sep));
      WordsFree(token, Chars(sep));
      if n == 0 {
        size, rest, token := StringToken(rest, sep);
        return;
      }
    } else {
      token := strs;
      rest := [];
      WordsFree(token, Chars(sep));
    }
    size := Some(|token|);
  }

  /** `StringSplit(str, sep, vecList)`: appends the words to the caller's list, whatever it held. */
  method StringSplitBySet(str: string, sep: string, vecList: seq<string>) returns (list: seq<string>, size: nat)
    ensures list == vecList + Words(str, Chars(sep)) && size == |list|
  {
    var strs := str;
    list := vecList;
    var tokenSize, rest, token := StringToken(strs, sep);
    strs := rest;
    while tokenSize.Some?
      invariant tokenSize.None? ==> list + Words(strs, Chars(sep)) == vecList + Words(str, Chars(sep)) && Words(strs, Chars(sep)) == []
      invariant tokenSize.Some? ==> list + ([token] + Words(strs, Chars(sep))) == vecList + Words(str, Chars(sep))
      decreases tokenSize.Some?, |strs|
    {
      list := list + [token];
      ghost var left := strs;
      tokenSize, rest, token := StringToken(strs, sep);
      strs := rest;
    }
    return list, |list|;
  }

  /** For a single separator character the two splitters return the same list on every text. */
  method BothSplits(str: string, delim: char) returns (byChar: seq<string>, bySet: seq<string>)
    ensures byChar == bySet
  {
    byChar := StringSplitByChar(str, delim);
    var size;
    bySet, size := StringSplitBySet(str, [delim], []);
    assert Chars([delim]) == {delim};
  }
}
