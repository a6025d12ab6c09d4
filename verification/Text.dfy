/** The two string clean-ups the services apply to codes before comparing them: Python's
    `upper` and `strip`, on the ASCII letters and white space that currency codes, fiscal
    periods and reporting standards are made of. */
module Text {
  function UpperChar(c: char): char
  {
    if 'a' <= c <= 'z' then c - 'a' + 'A' else c
  }

  function Upper(s: string): (r: string)
    ensures |r| == |s|
    ensures forall i :: 0 <= i < |s| ==> r[i] == UpperChar(s[i])
  {
    seq(|s|, i requires 0 <= i < |s| => UpperChar(s[i]))
  }

  predicate IsSpace(c: char)
  {
    c == ' ' || c == '\t' || c == '\n' || c == '\r'
  }

  function Strip(s: string): (r: string)
    ensures r != [] ==> !IsSpace(r[0]) && !IsSpace(r[|r| - 1])
  {
    if s == [] then []
    else if IsSpace(s[0]) then Strip(s[1..])
    else if IsSpace(s[|s| - 1]) then Strip(s[..|s| - 1])
    else s
  }

  /** Cleaning a code twice is cleaning it once, so the layers that each upper-case a
      currency code agree on the code they look up. */
  lemma UpperIdempotent(s: string)
    ensures Upper(Upper(s)) == Upper(s)
  {
    forall i | 0 <= i < |s| ensures Upper(Upper(s))[i] == Upper(s)[i] {
      assert Upper(Upper(s))[i] == UpperChar(UpperChar(s[i]));
    }
  }

  /** No lower-case letter is left, and every other character keeps its place. */
  lemma UpperMeans(s: string, i: nat)
    requires i < |s|
    ensures !('a' <= Upper(s)[i] <= 'z')
    ensures if 'a' <= s[i] <= 'z' then Upper(s)[i] as int == s[i] as int - 32 else Upper(s)[i] == s[i]
  {
  }

  lemma SliceOfSlice(s: string, a: nat, b: nat, i: nat, j: nat)
    requires a <= b <= |s| && i <= j <= b - a
    ensures s[a..b][i..j] == s[a + i..a + j]
  {
    var part, direct := s[a..b][i..j], s[a + i..a + j];
    forall k | 0 <= k < j - i ensures part[k] == direct[k] {
      assert part[k] == s[a..b][i + k];
    }
    assert |part| == |direct| == j - i;
  }

  predicate SpaceOutside(s: string, from: nat, to: nat)
  {
    forall k :: 0 <= k < |s| && (k < from || to <= k) ==> IsSpace(s[k])
  }

  /** Stripping cuts off the white space at both ends, all of it and nothing else. */
  lemma {:induction false} StripMeans(s: string) returns (from: nat, to: nat)
    ensures from <= to <= |s| && Strip(s) == s[from..to] && SpaceOutside(s, from, to)
    ensures Strip(s) != [] ==> !IsSpace(Strip(s)[0]) && !IsSpace(Strip(s)[|Strip(s)| - 1])
  {
    if s != [] && IsSpace(s[0]) {
      var rest := s[1..];
      var i, j := StripMeans(rest);
      from, to := i + 1, j + 1;
      SliceOfSlice(s, 1, |s|, i, j);
      assert forall k :: 1 <= k < |s| ==> s[k] == rest[k - 1];
    } else if s != [] && IsSpace(s[|s| - 1]) {
      var rest := s[..|s| - 1];
      from, to := StripMeans(rest);
      SliceOfSlice(s, 0, |s| - 1, from, to);
      assert rest == s[0..|s| - 1];
    } else {
      from, to := 0, |s|;
    }
  }
}
