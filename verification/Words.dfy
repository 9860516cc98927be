// Splitting text into its maximal runs of non-separator characters: what the two splitters and the name normaliser share.
module WordLists {
  import opened Common

  predicate Free(s: string, seps: set<char>)
  {
    forall c <- s :: c !in seps
  }

  /** The length of the separator-free run that `s` starts with. */
  function RunLength(s: string, seps: set<char>): (n: nat)
    ensures n <= |s| && Free(s[..n], seps) && (n < |s| ==> s[n] in seps)
  {
    if s == [] || s[0] in seps then 0
    else
      var n := RunLength(s[1..], seps);
      assert s[..n + 1] == [s[0]] + s[1..][..n];
      n + 1
  }

  /** The maximal separator-free runs of `s`, in order. */
  function Words(s: string, seps: set<char>): seq<string>
    decreases |s|
  {
    if s == [] then []
    else if s[0] in seps then Words(s[1..], seps)
    else
      var n := RunLength(s, seps);
      [s[..n]] + Words(s[n..], seps)
  }

  lemma {:induction false} WordsProper(s: string, seps: set<char>)
    ensures forall w <- Words(s, seps) :: w != [] && Free(w, seps)
    decreases |s|
  {
    if s != [] {
      if s[0] in seps {
        WordsProper(s[1..], seps);
      } else {
        WordsProper(s[RunLength(s, seps)..], seps);
      }
    }
  }

  lemma {:induction false} RunLengthIs(s: string, n: nat, seps: set<char>)
    requires n <= |s| && Free(s[..n], seps) && (n < |s| ==> s[n] in seps)
    ensures RunLength(s, seps) == n
  {
    if n > 0 {
      assert s[..n] == [s[0]] + s[1..][..n - 1];
      assert s[0] in s[..n] && forall c <- s[1..][..n - 1] :: c in s[..n];
      RunLengthIs(s[1..], n - 1, seps);
    }
  }

  /** A nonempty run that ends at a separator or at the end is the first word. */
  lemma WordsRun(s: string, n: nat, seps: set<char>)
    requires 0 < n <= |s| && Free(s[..n], seps) && (n < |s| ==> s[n] in seps)
    ensures Words(s, seps) == [s[..n]] + Words(s[n..], seps)
  {
    RunLengthIs(s, n, seps);
    assert s[0] == s[..n][0];
  }

  lemma {:induction false} WordsGap(gap: string, rest: string, seps: set<char>)
    requires forall c <- gap :: c in seps
    ensures Words(gap + rest, seps) == Words(rest, seps)
  {
    if gap == [] {
      assert gap + rest == rest;
    } else {
      assert (gap + rest)[1..] == gap[1..] + rest;
      WordsGap(gap[1..], rest, seps);
    }
  }

  lemma WordsFree(w: string, seps: set<char>)
    requires Free(w, seps)
    ensures Words(w, seps) == if w == [] then [] else [w]
  {
    if w != [] {
      assert w[..|w|] == w;
      WordsRun(w, |w|, seps);
    }
  }

  lemma TakeDrop<T>(s: seq<T>, rest: seq<T>, n: nat)
    requires n <= |s|
    ensures (s + rest)[..n] == s[..n] && (s + rest)[n..] == s[n..] + rest
  {
  }

  /** A separator splits the word list in two: with `WordsFree`, this determines `Words` on every text. */
  lemma {:induction false} WordsSplit(a: string, c: char, b: string, seps: set<char>)
    requires c in seps
    ensures Words(a + [c] + b, seps) == Words(a, seps) + Words(b, seps)
    decreases |a|
  {
    var s := a + [c] + b;
    if a == [] {
      assert s == [c] + b;
      WordsGap([c], b, seps);
    } else if a[0] in seps {
      assert s[1..] == a[1..] + [c] + b;
      WordsSplit(a[1..], c, b, seps);
    } else {
      var n := RunLength(a, seps);
      Regroup(a, [c], b);
      TakeDrop(a, [c] + b, n);
      Regroup(a[n..], [c], b);
      WordsRun(s, n, seps);
      WordsSplit(a[n..], c, b, seps);
    }
  }

  function Concat(ws: seq<string>): string
  {
    if ws == [] then [] else ws[0] + Concat(ws[1..])
  }

  function Without(s: string, seps: set<char>): string
  {
    if s == [] then [] else (if s[0] in seps then [] else [s[0]]) + Without(s[1..], seps)
  }

  lemma {:induction false} WithoutRun(w: string, rest: string, seps: set<char>)
    requires Free(w, seps)
    ensures Without(w + rest, seps) == w + Without(rest, seps)
  {
    if w == [] {
      assert w + rest == rest;
    } else {
      assert (w + rest)[1..] == w[1..] + rest;
      WithoutRun(w[1..], rest, seps);
      assert [w[0]] + w[1..] == w;
    }
  }

  /** Nothing but separators is dropped: the words put together are the text with its separators deleted. */
  lemma {:induction false} WordsConcat(s: string, seps: set<char>)
    ensures Concat(Words(s, seps)) == Without(s, seps)
    decreases |s|
  {
    if s != [] {
      if s[0] in seps {
        WordsConcat(s[1..], seps);
      } else {
        var n := RunLength(s, seps);
        assert s == s[..n] + s[n..];
        WithoutRun(s[..n], s[n..], seps);
        WordsConcat(s[n..], seps);
      }
    }
  }
}
