/** The cache keys of the two queries: `search_<query>_<limit>` and
    `movie_<tconst>`, with the limit written the way Python's `str` writes an
    integer. */
module Keys {

  function Digit(d: nat): (c: char)
    requires d < 10
  {
    "0123456789"[d]
  }

  predicate IsDigit(c: char)
  {
    '0' <= c <= '9'
  }

  /** The decimal digits of `n`, most significant first, without leading
      zeros. */
  function NatToString(n: nat): string
    decreases n
  {
    if n < 10 then [Digit(n)] else NatToString(n / 10) + [Digit(n % 10)]
  }

  /** `str(i)` for an integer. */
  function IntToString(i: int): string
  {
    if i < 0 then "-" + NatToString(-i) else NatToString(i)
  }

  function SearchKey(query: string, limit: int): string
  {
    "search_" + query + "_" + IntToString(limit)
  }

  function MovieKey(tconst: string): string
  {
    "movie_" + tconst
  }

  /** `key` begins like a search key. */
  predicate IsSearchKey(key: string)
  {
    |key| >= 7 && key[..7] == "search_"
  }

  /** `key` begins like a detail key. */
  predicate IsMovieKey(key: string)
  {
    |key| >= 6 && key[..6] == "movie_"
  }

  lemma DigitInjective(a: nat, b: nat)
    requires a < 10 && b < 10
    ensures Digit(a) == Digit(b) ==> a == b
    ensures IsDigit(Digit(a))
  {
  }

  /** The rendering of a natural number is non-empty, all digits, and longer
      than one character exactly from 10 on. */
  lemma {:induction false} NatToStringShape(n: nat)
    ensures |NatToString(n)| >= 1
    ensures (|NatToString(n)| == 1) == (n < 10)
    ensures forall k :: 0 <= k < |NatToString(n)| ==> IsDigit(NatToString(n)[k])
    decreases n
  {
    if n >= 10 {
      NatToStringShape(n / 10);
      DigitInjective(n % 10, 0);
    } else {
      DigitInjective(n, 0);
    }
  }

  /** Different natural numbers are rendered differently. */
  lemma {:induction false} NatToStringInjective(a: nat, b: nat)
    requires NatToString(a) == NatToString(b)
    ensures a == b
    decreases a
  {
    NatToStringShape(a);
    NatToStringShape(b);
    if a < 10 {
      DigitInjective(a, b);
    } else {
      var sa, sb := NatToString(a), NatToString(b);
      assert sa[|sa| - 1] == Digit(a % 10) && sb[|sb| - 1] == Digit(b % 10);
      DigitInjective(a % 10, b % 10);
      assert sa[..|sa| - 1] == NatToString(a / 10);
      assert sb[..|sb| - 1] == NatToString(b / 10);
      NatToStringInjective(a / 10, b / 10);
    }
  }

  /** Python's rendering of an integer is non-empty, starts with a minus
      sign exactly for negative numbers, and never contains an underscore. */
  lemma IntToStringShape(i: int)
    ensures |IntToString(i)| >= 1
    ensures IntToString(i)[0] == '-' <==> i < 0
    ensures '_' !in IntToString(i)
  {
    var n: nat := if i < 0 then -i else i;
    NatToStringShape(n);
    var s := IntToString(i);
    if i < 0 {
      assert s == "-" + NatToString(n);
      assert forall k :: 1 <= k < |s| ==> s[k] == NatToString(n)[k - 1];
    } else {
      assert IsDigit(s[0]);
    }
    assert forall k :: 0 <= k < |s| ==> s[k] != '_';
  }

  /** Different integers are rendered differently. */
  lemma IntToStringInjective(a: int, b: int)
    requires IntToString(a) == IntToString(b)
    ensures a == b
  {
    IntToStringShape(a);
    IntToStringShape(b);
    if a < 0 {
      assert IntToString(a)[1..] == NatToString(-a);
      assert IntToString(b)[1..] == NatToString(-b);
      NatToStringInjective(-a, -b);
    } else {
      NatToStringInjective(a, b);
    }
  }

  /** When each of two strings ends in an underscore-free part after an
      underscore, equal strings have equal heads and equal tails. */
  lemma SplitAtLastUnderscore(a1: string, d1: string, a2: string, d2: string)
    requires '_' !in d1 && '_' !in d2
    requires a1 + "_" + d1 == a2 + "_" + d2
    ensures a1 == a2 && d1 == d2
  {
    var s := a1 + "_" + d1;
    assert s[|a1|] == '_' && s[|a2|] == '_';
    assert forall k :: |a1| < k < |s| ==> s[k] == d1[k - |a1| - 1];
    assert forall k :: |a2| < k < |s| ==> s[k] == d2[k - |a2| - 1];
    assert forall k :: |a1| < k < |s| ==> s[k] != '_';
    assert forall k :: |a2| < k < |s| ==> s[k] != '_';
    assert |a1| == |a2|;
    assert a1 == s[..|a1|] && a2 == s[..|a2|];
    assert d1 == s[|a1| + 1..] && d2 == s[|a2| + 1..];
  }

  /** Two searches share a cache entry exactly when they have the same
      query text and the same limit. */
  lemma SearchKeyInjective(q1: string, l1: int, q2: string, l2: int)
    ensures SearchKey(q1, l1) == SearchKey(q2, l2) <==> q1 == q2 && l1 == l2
  {
    if SearchKey(q1, l1) == SearchKey(q2, l2) {
      IntToStringShape(l1);
      IntToStringShape(l2);
      assert SearchKey(q1, l1) == ("search_" + q1) + "_" + IntToString(l1);
      assert SearchKey(q2, l2) == ("search_" + q2) + "_" + IntToString(l2);
      SplitAtLastUnderscore("search_" + q1, IntToString(l1), "search_" + q2, IntToString(l2));
      assert q1 == ("search_" + q1)[7..] && q2 == ("search_" + q2)[7..];
      IntToStringInjective(l1, l2);
    }
  }

  /** Two detail lookups share a cache entry exactly when they ask for the
      same movie. */
  lemma MovieKeyInjective(t1: string, t2: string)
    ensures MovieKey(t1) == MovieKey(t2) <==> t1 == t2
  {
    if MovieKey(t1) == MovieKey(t2) {
      assert t1 == MovieKey(t1)[6..] && t2 == MovieKey(t2)[6..];
    }
  }

  /** Search keys and detail keys fall into two disjoint families, so a
      search never reads an entry a detail lookup stored, nor the reverse. */
  lemma KeyFamilies(query: string, limit: int, tconst: string)
    ensures IsSearchKey(SearchKey(query, limit)) && !IsMovieKey(SearchKey(query, limit))
    ensures IsMovieKey(MovieKey(tconst)) && !IsSearchKey(MovieKey(tconst))
  {
    assert SearchKey(query, limit)[..7] == "search_";
    assert SearchKey(query, limit)[0] == 's';
    assert MovieKey(tconst)[..6] == "movie_";
    assert MovieKey(tconst)[0] == 'm';
  }
}
