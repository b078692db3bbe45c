/** The few `java.lang.String` operations the resolution engine relies on. */
module JavaStrings {
  import opened Wrappers
  import opened Sequences

  predicate StartsWith(s: string, prefix: string)
  {
    |prefix| <= |s| && s[..|prefix|] == prefix
  }

  predicate EndsWith(s: string, suffix: string)
  {
    |suffix| <= |s| && s[|s| - |suffix|..] == suffix
  }

  /** `s.indexOf(c)`, with `None` for -1. */
  function IndexOf(s: string, c: char): (r: Option<nat>)
    ensures r.Some? ==> r.value < |s| && s[r.value] == c && c !in s[..r.value]
    ensures r.None? <==> c !in s
  {
    var r := FirstMatch(s, x => x == c);
    assert r.Some? ==> forall x :: x in s[..r.value] ==> x != c by {
      if r.Some? {
        forall x | x in s[..r.value] ensures x != c {
          var j :| 0 <= j < r.value && s[j] == x;
        }
      }
    }
    r
  }

  /**
   * `s.lastIndexOf(c)`, with `None` for -1. The resolution engine does not call
   * it; it locates the end of the greedy `<.*>` match.
   */
  function LastIndexOf(s: string, c: char): (r: Option<nat>)
    ensures r.Some? ==> r.value < |s| && s[r.value] == c && c !in s[r.value + 1..]
    ensures r.None? <==> c !in s
  {
    if |s| == 0 then None
    else if s[|s| - 1] == c then Some(|s| - 1)
    else
      var r := LastIndexOf(s[..|s| - 1], c);
      assert s == s[..|s| - 1] + [s[|s| - 1]];
      r
  }

  /** The first occurrence is the one with none before it. */
  lemma IndexOfAt(s: string, c: char, k: nat)
    requires k < |s| && s[k] == c && c !in s[..k]
    ensures IndexOf(s, c) == Some(k)
  {
    var r := IndexOf(s, c);
    assert s[..r.value + 1][r.value] == c;
  }
}
