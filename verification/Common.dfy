/** Small datatypes and sequence helpers shared by every component of the model. */
module Common {

  datatype Option<+T> = None | Some(value: T)

  /** An octet, as the wire and the credential files carry it. */
  type byte = x: int | 0 <= x < 256

  const U32_MAX: nat := 0xFFFF_FFFF
  const U64_MAX: nat := 0xFFFF_FFFF_FFFF_FFFF

  /** Time since an instant; zero if the instant lies ahead. */
  function Elapsed(since: nat, now: nat): nat {
    if now < since then 0 else now - since
  }

  function Init<T>(s: seq<T>): seq<T>
    requires s != []
  {
    s[..|s| - 1]
  }

  function Last<T>(s: seq<T>): T
    requires s != []
  {
    s[|s| - 1]
  }

  lemma InitLast<T>(s: seq<T>)
    requires s != []
    ensures |Init(s)| == |s| - 1 && Init(s) + [Last(s)] == s
    ensures multiset(s) == multiset(Init(s)) + multiset{Last(s)}
  {
    assert Init(s) + [Last(s)] == s;
  }

  /** The first `n` elements, or all if there are fewer. */
  function Take<T>(s: seq<T>, n: nat): seq<T> {
    if |s| <= n then s else s[..n]
  }

  function Elements<T>(s: seq<T>): set<T> {
    set x | x in s
  }

  ghost predicate Distinct<T>(s: seq<T>) {
    forall i, j :: 0 <= i < j < |s| ==> s[i] != s[j]
  }

  lemma {:induction false} DistinctCount<T>(s: seq<T>)
    requires Distinct(s)
    ensures |Elements(s)| == |s|
  {
    if s == [] {
    } else {
      DistinctCount(Init(s));
      assert s == Init(s) + [Last(s)];
      assert Elements(s) == Elements(Init(s)) + {Last(s)};
      assert Last(s) !in Init(s);
    }
  }

  /** `a` arises from `b` by leaving elements out. */
  ghost predicate Subsequence<T>(a: seq<T>, b: seq<T>)
    decreases |b|
  {
    a == [] || (b != [] && ((Last(a) == Last(b) && Subsequence(Init(a), Init(b))) || Subsequence(a, Init(b))))
  }

  lemma SubsequenceAppend<T>(a: seq<T>, b: seq<T>, x: T)
    requires Subsequence(a, b)
    ensures Subsequence(a + [x], b + [x]) && Subsequence(a, b + [x])
  {
    assert Init(b + [x]) == b && Init(a + [x]) == a;
  }

  lemma {:induction false} SubsequenceTransitive<T>(a: seq<T>, b: seq<T>, c: seq<T>)
    requires Subsequence(a, b) && Subsequence(b, c)
    ensures Subsequence(a, c)
    decreases |c|
  {
    if a == [] {
    } else {
      if Last(b) == Last(c) && Subsequence(Init(b), Init(c)) {
        if Last(a) == Last(b) && Subsequence(Init(a), Init(b)) {
          SubsequenceTransitive(Init(a), Init(b), Init(c));
        } else {
          SubsequenceTransitive(a, Init(b), Init(c));
        }
      } else {
        SubsequenceTransitive(a, b, Init(c));
      }
    }
  }

  /** Putting one element in front of both, or of the longer alone. */
  lemma {:induction false} SubsequenceFront<T>(a: seq<T>, b: seq<T>, x: T)
    requires Subsequence(a, b)
    ensures Subsequence([x] + a, [x] + b) && Subsequence(a, [x] + b)
    decreases |b|
  {
    if b == [] {
      assert Init([x]) == [];
    } else {
      assert Init([x] + b) == [x] + Init(b);
      if a == [] {
        SubsequenceFront([], Init(b), x);
        assert [x] + a == [x] && [x] + [] == [x];
      } else {
        assert Init([x] + a) == [x] + Init(a);
        if Last(a) == Last(b) && Subsequence(Init(a), Init(b)) {
          SubsequenceFront(Init(a), Init(b), x);
        } else {
          SubsequenceFront(a, Init(b), x);
        }
      }
    }
  }

  lemma {:induction false} SuffixIsSubsequence<T>(a: seq<T>, b: seq<T>)
    ensures Subsequence(b, a + b)
    decreases |b|
  {
    if b == [] {
    } else {
      SuffixIsSubsequence(a, Init(b));
      assert Init(a + b) == a + Init(b);
    }
  }

  lemma SubsetSize<T>(a: set<T>, b: set<T>)
    requires a <= b
    ensures |a| <= |b|
  {
    assert b == a + (b - a);
  }

  lemma SubmapSize<K, V>(a: map<K, V>, b: map<K, V>)
    requires a.Keys <= b.Keys
    ensures |a| <= |b|
  {
    SubsetSize(a.Keys, b.Keys);
    assert |a| == |a.Keys| && |b| == |b.Keys|;
  }

  /** Some number outside a finite set. */
  method Unused(used: set<nat>) returns (i: nat)
    ensures i !in used
  {
    i := 0;
    ghost var rest := used;
    while i in used
      invariant rest <= used && forall j | j in used && j !in rest :: j < i
      decreases rest
    {
      rest := rest - {i};
      i := i + 1;
    }
  }
}
