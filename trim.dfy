/** `trimZeros`: a string without its trailing NUL characters. */
module Trim {

  /** s without its trailing run of '\0'. */
  function Trimmed(s: string): (t: string)
    ensures |t| <= |s| && t == s[..|t|]
    ensures forall i :: |t| <= i < |s| ==> s[i] == '\0'
    ensures t == [] || t[|t| - 1] != '\0'
  {
    if s == [] then []
    else if s[|s| - 1] != '\0' then s
    else Trimmed(s[..|s| - 1])
  }

  /** The three properties above single out one string: any prefix that
      leaves only NULs behind and does not end in NUL is the trimmed one. */
  lemma {:induction false} TrimmedUnique(s: string, t: string)
    requires |t| <= |s| && t == s[..|t|]
    requires forall i :: |t| <= i < |s| ==> s[i] == '\0'
    requires t == [] || t[|t| - 1] != '\0'
    ensures Trimmed(s) == t
    decreases |s|
  {
    if |s| > |t| {
      assert s[|s| - 1] == '\0';
      assert s[..|s| - 1][..|t|] == t;
      TrimmedUnique(s[..|s| - 1], t);
    } else {
      assert s == t;
    }
  }

  /** Trimming twice trims nothing more. */
  lemma TrimmedIdempotent(s: string)
    ensures Trimmed(Trimmed(s)) == Trimmed(s)
  {
    var t := Trimmed(s);
    TrimmedUnique(t, t);
  }

  /** Appending NULs does not change the trimmed string. */
  lemma TrimmedIgnoresPadding(s: string, n: nat)
    ensures Trimmed(s + seq(n, _ => '\0')) == Trimmed(s)
  {
    var padded := s + seq(n, _ => '\0');
    var t := Trimmed(s);
    assert padded[..|t|] == t;
    TrimmedUnique(padded, t);
  }

  /** The loop over the indices from the last down to the first: the first
      non-NUL character found ends the result; none found gives ''. */
  method TrimZeros(s: string) returns (t: string)
    ensures t == Trimmed(s)
  {
    var i := |s|;
    while i > 0
      invariant 0 <= i <= |s|
      invariant forall k :: i <= k < |s| ==> s[k] == '\0'
    {
      i := i - 1;
      if s[i] != '\0' {
        TrimmedUnique(s, s[..i + 1]);
        return s[..i + 1];
      }
    }
    TrimmedUnique(s, []);
    return [];
  }
}
