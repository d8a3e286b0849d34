/** First-occurrence search, the meaning of `QByteArray::indexOf` and `std::string::find`. */
module Search {
  import opened Wrappers

  predicate MatchAt<T(==)>(s: seq<T>, pattern: seq<T>, i: nat) {
    i + |pattern| <= |s| && s[i..i + |pattern|] == pattern
  }

  function Find<T(==)>(s: seq<T>, pattern: seq<T>, from: nat): (r: Option<nat>)
    ensures r.Some? ==> from <= r.value && MatchAt(s, pattern, r.value)
    ensures r.Some? ==> forall j: nat :: from <= j < r.value ==> !MatchAt(s, pattern, j)
    ensures r.None? ==> forall j: nat :: from <= j ==> !MatchAt(s, pattern, j)
    decreases |s| - from
  {
    if from + |pattern| > |s| then None
    else if MatchAt(s, pattern, from) then Some(from)
    else Find(s, pattern, from + 1)
  }

  /** A match found inside a prefix is still the first match when more text arrives. */
  lemma FindInPrefix<T>(s: seq<T>, t: seq<T>, pattern: seq<T>, from: nat)
    requires Find(s, pattern, from).Some?
    ensures Find(s + t, pattern, from) == Find(s, pattern, from)
  {
    var i := Find(s, pattern, from).value;
    assert MatchAt(s + t, pattern, i) by {
      assert (s + t)[i..i + |pattern|] == s[i..i + |pattern|];
    }
    forall j: nat | from <= j < i
      ensures !MatchAt(s + t, pattern, j)
    {
      assert !MatchAt(s, pattern, j);
      assert (s + t)[j..j + |pattern|] == s[j..j + |pattern|];
    }
  }

  /** The first match, characterised: any first match is what `Find` returns. */
  lemma FindIs<T>(s: seq<T>, pattern: seq<T>, from: nat, i: nat)
    requires from <= i && MatchAt(s, pattern, i)
    requires forall j: nat :: from <= j < i ==> !MatchAt(s, pattern, j)
    ensures Find(s, pattern, from) == Some(i)
  {
    assert Find(s, pattern, from).Some?;
  }

  lemma SliceOfSlice<T>(s: seq<T>, i: nat, j: nat, a: nat, b: nat)
    requires i <= j <= |s| && a <= b <= j - i
    ensures s[i..j][a..b] == s[i + a..i + b]
  {
    var t := s[i..j];
    assert forall k :: a <= k < b ==> t[a..b][k - a] == t[k] == s[i + k];
  }

  /** A pattern found inside a slice is found in the whole, at the shifted place. */
  lemma MatchInSlice<T>(s: seq<T>, pattern: seq<T>, i: nat, j: nat, k: nat)
    requires i <= j <= |s| && k + |pattern| <= j - i
    ensures MatchAt(s[i..j], pattern, k) == MatchAt(s, pattern, i + k)
  {
    SliceOfSlice(s, i, j, k, k + |pattern|);
  }

  /** Cutting the text behind the first match keeps it; cutting into or before it loses it. */
  lemma FindInCut<T>(s: seq<T>, pattern: seq<T>, t: nat)
    requires Find(s, pattern, 0).Some? && t <= |s|
    ensures var i := Find(s, pattern, 0).value;
      Find(s[..t], pattern, 0) == if i + |pattern| <= t then Some(i) else None
  {
    var i := Find(s, pattern, 0).value;
    forall j: nat | j + |pattern| <= t
      ensures MatchAt(s[..t], pattern, j) == MatchAt(s, pattern, j)
    {
      assert s[..t][j..j + |pattern|] == s[j..j + |pattern|];
    }
    if i + |pattern| <= t {
      FindIs(s[..t], pattern, 0, i);
    }
  }

  /** Dropping text in front of the first match moves it. */
  lemma FindAfterDrop<T>(s: seq<T>, pattern: seq<T>, t: nat)
    requires Find(s, pattern, 0).Some? && t <= Find(s, pattern, 0).value
    ensures Find(s[t..], pattern, 0) == Some(Find(s, pattern, 0).value - t)
  {
    var i := Find(s, pattern, 0).value;
    forall j: nat | t + j <= i
      ensures MatchAt(s[t..], pattern, j) == MatchAt(s, pattern, t + j)
    {
      if t + j + |pattern| <= |s| {
        assert s[t..][j..j + |pattern|] == s[t + j..t + j + |pattern|];
      }
    }
    assert MatchAt(s[t..], pattern, i - t);
    FindIs(s[t..], pattern, 0, i - t);
  }
}
