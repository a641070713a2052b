/**
 * `strchr` on the characters of a C string before its terminator: the
 * search the day 3 and day 5 drivers use to find the end of the current line.
 */
module Text {
  import opened Results

  /** `strchr` from index `i`: the first index at or after `i` holding `c`. */
  function Find(s: seq<char>, i: nat, c: char): (r: Option<nat>)
    requires i <= |s|
    ensures r.Some? ==> i <= r.value < |s|
    decreases |s| - i
  {
    if i == |s| then None
    else if s[i] == c then Some(i)
    else Find(s, i + 1, c)
  }

  /** `Find` returns the first occurrence, or nothing when there is none. */
  lemma {:induction false} FindMeaning(s: seq<char>, i: nat, c: char)
    requires i <= |s|
    ensures var r := Find(s, i, c);
      && (r.Some? ==> s[r.value] == c && c !in s[i..r.value])
      && (r.None? ==> c !in s[i..])
    decreases |s| - i
  {
    if i < |s| && s[i] != c {
      FindMeaning(s, i + 1, c);
      var r := Find(s, i + 1, c);
      if r.Some? {
        assert s[i..r.value] == [s[i]] + s[i + 1..r.value];
      } else {
        assert s[i..] == [s[i]] + s[i + 1..];
      }
    }
  }

  lemma {:induction false} FindAt(s: seq<char>, i: nat, c: char, e: nat)
    requires i <= e < |s| && s[e] == c && c !in s[i..e]
    ensures Find(s, i, c) == Some(e)
    decreases e - i
  {
    if i < e {
      assert s[i] == s[i..e][0];
      assert s[i + 1..e] == s[i..e][1..];
      FindAt(s, i + 1, c, e);
    }
  }

  lemma {:induction false} FindNone(s: seq<char>, i: nat, c: char)
    requires i <= |s| && c !in s[i..]
    ensures Find(s, i, c) == None
    decreases |s| - i
  {
    if i < |s| {
      assert s[i] == s[i..][0];
      assert s[i + 1..] == s[i..][1..];
      FindNone(s, i + 1, c);
    }
  }

  /** Searching a suffix finds what searching the whole text from the same place finds. */
  lemma {:induction false} FindSuffix(s: seq<char>, p: nat, j: nat, c: char)
    requires p + j <= |s|
    ensures Find(s, p + j, c) == (match Find(s[p..], j, c) case None => None case Some(e) => Some(p + e))
    decreases |s| - p - j
  {
    if p + j < |s| && s[p + j] != c {
      FindSuffix(s, p, j + 1, c);
    }
  }
}
