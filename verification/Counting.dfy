/** How often something occurs in a sequence. */
module Counting {
  function Count<T(==)>(s: seq<T>, x: T): nat {
    multiset(s)[x]
  }

  lemma CountJoin<T>(a: seq<T>, b: seq<T>, x: T)
    ensures Count(a + b, x) == Count(a, x) + Count(b, x)
  {
  }

  lemma CountFirst<T>(s: seq<T>, x: T)
    requires s != []
    ensures Count(s, x) == (if s[0] == x then 1 else 0) + Count(s[1..], x)
  {
    assert s == [s[0]] + s[1..];
    CountJoin([s[0]], s[1..], x);
  }

  /** What counts once stands at one place. */
  lemma CountTwice<T>(s: seq<T>, i: nat, j: nat)
    requires i < j < |s|
    ensures s[i] == s[j] ==> Count(s, s[i]) >= 2
  {
    if s[i] == s[j] {
      assert s == s[..j] + s[j..];
      CountJoin(s[..j], s[j..], s[i]);
      assert s[..j][i] == s[i] && s[j..][0] == s[i];
      assert s[i] in multiset(s[..j]) && s[i] in multiset(s[j..]);
    }
  }

  lemma Distributes(n: nat, k: nat)
    ensures (1 + n) * k == k + n * k
  {
  }

  lemma Associative<T>(a: seq<T>, b: seq<T>, c: seq<T>)
    ensures (a + b) + c == a + (b + c)
  {
  }
}
