/** Letters without regard to their case, as lcase and strcasecmp have it for ASCII. */
module Letters {

  function Lower(c: char): char {
    if 'A' <= c <= 'Z' then (c as int - 'A' as int + 'a' as int) as char else c
  }

  /** lcase */
  function Lowered(s: string): (r: string)
    ensures |r| == |s| && forall i :: 0 <= i < |s| ==> r[i] == Lower(s[i])
  {
    seq(|s|, i requires 0 <= i < |s| => Lower(s[i]))
  }

  /** Two texts are lowered to the same one if they differ at most in the case of letters, whose codes are 32 apart. */
  lemma SameLoweredIff(a: string, b: string)
    ensures Lowered(a) == Lowered(b) <==>
            |a| == |b| && forall i :: 0 <= i < |a| ==>
              || a[i] == b[i]
              || ('A' <= a[i] <= 'Z' && b[i] as int == a[i] as int + 32)
              || ('A' <= b[i] <= 'Z' && a[i] as int == b[i] as int + 32)
  {
    if Lowered(a) == Lowered(b) {
      forall i | 0 <= i < |a| ensures Lower(a[i]) == Lower(b[i]) {
        assert Lowered(a)[i] == Lowered(b)[i];
      }
    }
  }

  /** What has no capitals is lowered to itself. */
  lemma AlreadyLow(s: string)
    requires forall i :: 0 <= i < |s| ==> !('A' <= s[i] <= 'Z')
    ensures Lowered(s) == s
  {
  }
}
