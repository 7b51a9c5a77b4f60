/** Taking one element out of a sequence, putting one in, moving the last, exchanging two, and
    joining sequences. */
module Sequences {

  function Without<T>(s: seq<T>, k: nat): (r: seq<T>)
    requires k < |s|
  {
    s[..k] + s[k + 1..]
  }

  function Spliced<T>(s: seq<T>, p: nat, x: T): (r: seq<T>)
    requires p <= |s|
  {
    s[..p] + [x] + s[p..]
  }

  lemma SplicedAt<T>(s: seq<T>, p: nat, x: T, i: nat)
    requires p <= |s| && i <= |s|
    ensures |Spliced(s, p, x)| == |s| + 1
    ensures Spliced(s, p, x)[i] == if i < p then s[i] else if i == p then x else s[i - 1]
  {
  }

  lemma SplicedHas<T>(s: seq<T>, p: nat, x: T, y: T)
    requires p <= |s|
    ensures y in Spliced(s, p, x) <==> y in s || y == x
  {
    assert s == s[..p] + s[p..];
  }

  lemma SplicedDistinct<T>(s: seq<T>, p: nat, x: T)
    requires p <= |s| && NoDuplicates(s) && x !in s
    ensures NoDuplicates(Spliced(s, p, x))
  {
    forall i, j | 0 <= i < j < |Spliced(s, p, x)| ensures Spliced(s, p, x)[i] != Spliced(s, p, x)[j] {
      SplicedAt(s, p, x, i);
      SplicedAt(s, p, x, j);
      hide Spliced;
    }
  }

  lemma SplicedMultiset<T>(s: seq<T>, p: nat, x: T)
    requires p <= |s|
    ensures multiset(Spliced(s, p, x)) == multiset(s) + multiset{x}
  {
    assert s == s[..p] + s[p..];
  }

  lemma WithoutAt<T>(s: seq<T>, k: nat)
    requires k < |s|
    ensures |Without(s, k)| == |s| - 1
    ensures forall i :: 0 <= i < |s| - 1 ==> Without(s, k)[i] == s[if i < k then i else i + 1]
  {
  }

  lemma WithoutMultiset<T>(s: seq<T>, k: nat)
    requires k < |s|
    ensures multiset(Without(s, k)) + multiset{s[k]} == multiset(s)
  {
    assert s == s[..k] + [s[k]] + s[k + 1..];
  }

  lemma SubsetIsNoLarger<T>(a: set<T>, b: set<T>)
    requires a <= b
    ensures |a| <= |b| && (a != b ==> |a| < |b|)
  {
    assert b == a + (b - a);
    assert a != b ==> b - a != {};
  }

  ghost predicate NoDuplicates<T>(s: seq<T>) {
    forall i, j :: 0 <= i < j < |s| ==> s[i] != s[j]
  }

  function Concat<T>(ss: seq<seq<T>>): seq<T> {
    if ss == [] then [] else ss[0] + Concat(ss[1..])
  }

  lemma JoinAssociates<T>(a: seq<T>, b: seq<T>, c: seq<T>)
    ensures a + (b + c) == (a + b) + c
  {
  }

  lemma ConcatOne<T>(s: seq<T>)
    ensures Concat([s]) == s && Concat<T>([]) == []
  {
    assert [s][1..] == [] && s + [] == s;
  }

  lemma {:induction false} ConcatNext<T>(ss: seq<seq<T>>, i: nat)
    requires i < |ss|
    ensures Concat(ss[..i + 1]) == Concat(ss[..i]) + ss[i]
  {
    if i == 0 {
      assert ss[..1] == [ss[0]] && ss[..0] == [];
      ConcatOne(ss[0]);
    } else {
      ConcatNext(ss[1..], i - 1);
      assert ss[..i + 1][1..] == ss[1..][..i] && ss[..i][1..] == ss[1..][..i - 1];
      JoinAssociates(ss[0], Concat(ss[1..][..i - 1]), ss[i]);
    }
  }

  lemma {:induction false} ConcatSplits<T>(chunks: seq<seq<T>>, i: nat)
    requires i <= |chunks|
    ensures Concat(chunks) == Concat(chunks[..i]) + Concat(chunks[i..])
  {
    if i == 0 {
      assert chunks[..0] == [] && chunks[0..] == chunks;
    } else {
      ConcatSplits(chunks[1..], i - 1);
      assert chunks[..i][1..] == chunks[1..][..i - 1] && chunks[1..][i - 1..] == chunks[i..];
    }
  }

  /** The last element has been moved over the one at `i`. */
  function Moved<T>(s: seq<T>, i: nat): (r: seq<T>)
    requires i < |s|
    ensures |r| == |s| - 1
  {
    s[i := s[|s| - 1]][..|s| - 1]
  }

  lemma PrefixAfter<T>(a: seq<T>, b: seq<T>, c: seq<T>)
    requires b <= c
    ensures a + b <= a + c
  {
  }

  lemma PrefixSplits<T>(a: seq<T>, b: seq<T>, c: seq<T>)
    requires a + b <= c
    ensures a <= c && b <= c[|a|..]
  {
    assert a + b == c[..|a| + |b|];
    assert c[|a|..][..|b|] == c[..|a| + |b|][|a|..] == b;
  }

  function Swapped<T>(s: seq<T>, i: nat, j: nat): (r: seq<T>)
    requires i < |s| && j < |s|
    ensures |r| == |s| && r[i] == s[j] && r[j] == s[i]
    ensures forall k :: 0 <= k < |s| && k != i && k != j ==> r[k] == s[k]
    ensures multiset(r) == multiset(s)
  {
    s[i := s[j]][j := s[i]]
  }
}
