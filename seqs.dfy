/** Sequence helpers shared by the model: order-preserving deduplication and flattening. */
module Seqs {

  /** No element occurs twice. */
  predicate Distinct<T(==)>(s: seq<T>) {
    forall i, j :: 0 <= i < j < |s| ==> s[i] != s[j]
  }

  /** `a` is an initial segment of `b`. */
  predicate PrefixOf<T(==)>(a: seq<T>, b: seq<T>) {
    |a| <= |b| && b[..|a|] == a
  }

  lemma PrefixTrans<T>(a: seq<T>, b: seq<T>, c: seq<T>)
    requires PrefixOf(a, b) && PrefixOf(b, c)
    ensures PrefixOf(a, c)
  {
    assert c[..|b|][..|a|] == c[..|a|];
  }

  lemma ConcatRegroup<T>(a: seq<T>, b: seq<T>, c: seq<T>)
    ensures (a + b) + c == a + (b + c)
  {
  }

  /** Pushing the next element of `all` onto a prefix of it gives the next prefix. */
  lemma PrefixPush<T>(xs: seq<T>, all: seq<T>, k: nat, x: T)
    requires k < |all| && xs == all[..k] && all[k] == x
    ensures xs + [x] == all[..k + 1]
  {
    assert all[..k + 1] == all[..k] + [all[k]];
  }

  /**
   * The "push unless already included" loop run over `s`: the first occurrence of every
   * element survives, in first-seen order.
   */
  function Dedup<T(==)>(s: seq<T>): seq<T>
    decreases |s|
  {
    DedupOnto([], s)
  }

  /** The accumulator form of Dedup: start from `acc`, push each element of `s` not yet present. */
  function DedupOnto<T(==)>(acc: seq<T>, s: seq<T>): seq<T>
    decreases |s|
  {
    if |s| == 0 then acc
    else if s[0] in acc then DedupOnto(acc, s[1..])
    else DedupOnto(acc + [s[0]], s[1..])
  }

  lemma {:induction false} DedupOntoProps<T>(acc: seq<T>, s: seq<T>)
    requires Distinct(acc)
    ensures Distinct(DedupOnto(acc, s))
    ensures forall x :: x in DedupOnto(acc, s) <==> x in acc || x in s
    ensures |DedupOnto(acc, s)| >= |acc| && DedupOnto(acc, s)[..|acc|] == acc
    decreases |s|
  {
    if |s| == 0 {
    } else if s[0] in acc {
      DedupOntoProps(acc, s[1..]);
      assert forall x :: x in s <==> x == s[0] || x in s[1..];
    } else {
      var acc' := acc + [s[0]];
      assert Distinct(acc') by {
        forall i, j | 0 <= i < j < |acc'| ensures acc'[i] != acc'[j] {
          if j == |acc| {
            assert acc'[i] == acc[i];
          }
        }
      }
      DedupOntoProps(acc', s[1..]);
      assert forall x :: x in s <==> x == s[0] || x in s[1..];
      assert DedupOnto(acc, s)[..|acc'|][..|acc|] == acc;
    }
  }

  /** The deduplicated sequence is duplicate-free and has exactly the members of the input. */
  lemma DedupProps<T>(s: seq<T>)
    ensures Distinct(Dedup(s))
    ensures forall x :: x in Dedup(s) <==> x in s
    ensures |Dedup(s)| <= |s|
  {
    DedupOntoProps([], s);
    DedupLength([], s);
  }

  lemma {:induction false} DedupLength<T>(acc: seq<T>, s: seq<T>)
    ensures |DedupOnto(acc, s)| <= |acc| + |s|
    decreases |s|
  {
    if |s| > 0 {
      if s[0] in acc {
        DedupLength(acc, s[1..]);
      } else {
        DedupLength(acc + [s[0]], s[1..]);
      }
    }
  }

  /** Pushing onto an accumulator and deduplicating commute: the loop can be split anywhere. */
  lemma {:induction false} DedupOntoAppend<T>(acc: seq<T>, s: seq<T>, t: seq<T>)
    ensures DedupOnto(acc, s + t) == DedupOnto(DedupOnto(acc, s), t)
    decreases |s|
  {
    if |s| == 0 {
      assert s + t == t;
    } else {
      assert (s + t)[0] == s[0];
      assert (s + t)[1..] == s[1..] + t;
      if s[0] in acc {
        DedupOntoAppend(acc, s[1..], t);
      } else {
        DedupOntoAppend(acc + [s[0]], s[1..], t);
      }
    }
  }

  /** One step of the "push unless included" loop. */
  lemma DedupOntoSnoc<T>(acc: seq<T>, s: seq<T>, x: T)
    ensures DedupOnto(acc, s + [x]) ==
      (var d := DedupOnto(acc, s); if x in d then d else d + [x])
  {
    DedupOntoAppend(acc, s, [x]);
  }

  /** One push of the "push unless included" loop, from the empty accumulator. */
  lemma DedupSnoc<T>(s: seq<T>, x: T)
    ensures Dedup(s + [x]) == if x in s then Dedup(s) else Dedup(s) + [x]
  {
    DedupOntoSnoc([], s, x);
    DedupProps(s);
  }

  /** One push of the loop that keeps the deduplicated list `d` of `s`: push when new. */
  lemma DedupPushList<T>(s: seq<T>, d: seq<T>, x: T)
    requires d == Dedup(s)
    ensures Dedup(s + [x]) == if x in d then d else d + [x]
  {
    DedupSnoc(s, x);
    DedupProps(s);
  }

  /**
   * One push of the loop that keeps the deduplicated list `d` of `s` and a set `ds` of its
   * members: test the set, push onto both when new.
   */
  lemma DedupPush<T>(s: seq<T>, d: seq<T>, ds: set<T>, x: T)
    requires d == Dedup(s) && forall y :: y in ds <==> y in d
    ensures x in ds ==> Dedup(s + [x]) == d
    ensures x !in ds ==> Dedup(s + [x]) == d + [x] && forall y :: y in ds + {x} <==> y in d + [x]
  {
    DedupSnoc(s, x);
    DedupProps(s);
  }

  /** A duplicate-free sequence is its own deduplication. */
  lemma {:induction false} DedupOntoDistinct<T>(acc: seq<T>, s: seq<T>)
    requires Distinct(acc + s)
    ensures DedupOnto(acc, s) == acc + s
    decreases |s|
  {
    if |s| > 0 {
      assert (acc + s)[|acc|] == s[0];
      assert s[0] !in acc by {
        forall i | 0 <= i < |acc| ensures acc[i] != s[0] {
          assert (acc + s)[i] == acc[i];
        }
      }
      assert acc + [s[0]] + s[1..] == acc + s;
      DedupOntoDistinct(acc + [s[0]], s[1..]);
    }
  }

  /** Deduplication is idempotent. */
  lemma DedupIdempotent<T>(s: seq<T>)
    ensures Dedup(Dedup(s)) == Dedup(s)
  {
    DedupProps(s);
    assert [] + Dedup(s) == Dedup(s);
    DedupOntoDistinct([], Dedup(s));
  }

  /**
   * An independent description of deduplication: keep an element exactly when it does not
   * occur earlier in the input.
   */
  function KeepFirsts<T(==)>(s: seq<T>): seq<T> {
    if |s| == 0 then []
    else KeepFirsts(s[..|s| - 1]) + (if s[|s| - 1] in s[..|s| - 1] then [] else [s[|s| - 1]])
  }

  /** Dedup keeps precisely the first occurrence of every element, in input order. */
  lemma {:induction false} DedupFirstOccurrences<T>(s: seq<T>)
    ensures Dedup(s) == KeepFirsts(s)
  {
    if |s| > 0 {
      var p := s[..|s| - 1];
      DedupFirstOccurrences(p);
      assert p + [s[|s| - 1]] == s;
      DedupOntoSnoc([], p, s[|s| - 1]);
      DedupProps(p);
    }
  }

  /** Concatenate a sequence of sequences. */
  function Flatten<T>(ss: seq<seq<T>>): (r: seq<T>)
    ensures |r| == SumLengths(ss)
  {
    if |ss| == 0 then [] else Flatten(ss[..|ss| - 1]) + ss[|ss| - 1]
  }

  function SumLengths<T>(ss: seq<seq<T>>): nat {
    if |ss| == 0 then 0 else SumLengths(ss[..|ss| - 1]) + |ss[|ss| - 1]|
  }

  /** Drop the elements failing `p`, keeping the order of the rest. */
  function Filter<T>(p: T -> bool, s: seq<T>): (r: seq<T>)
    ensures |r| <= |s|
    ensures forall i :: 0 <= i < |r| ==> r[i] in s && p(r[i])
    ensures forall i :: 0 <= i < |s| && p(s[i]) ==> s[i] in r
  {
    if |s| == 0 then []
    else
      var rest := Filter(p, s[..|s| - 1]);
      if p(s[|s| - 1]) then rest + [s[|s| - 1]] else rest
  }

  /** A filter every element passes keeps the sequence whole. */
  lemma {:induction false} FilterAll<T>(p: T -> bool, s: seq<T>)
    requires forall i :: 0 <= i < |s| ==> p(s[i])
    ensures Filter(p, s) == s
  {
    if |s| > 0 {
      FilterAll(p, s[..|s| - 1]);
    }
  }

  /** An element that passes the filter and comes first stays first. */
  lemma {:induction false} FilterHead<T>(p: T -> bool, s: seq<T>)
    requires |s| > 0 && p(s[0])
    ensures |Filter(p, s)| >= 1 && Filter(p, s)[0] == s[0]
    decreases |s|
  {
    if |s| > 1 {
      FilterHead(p, s[..|s| - 1]);
      assert s[..|s| - 1][0] == s[0];
    }
  }

  /** Apply `f` to every element. */
  function Map<T, U>(f: T -> U, s: seq<T>): (r: seq<U>)
    ensures |r| == |s|
    ensures forall i :: 0 <= i < |s| ==> r[i] == f(s[i])
  {
    seq(|s|, i requires 0 <= i < |s| => f(s[i]))
  }

  lemma MapSnoc<T, U>(f: T -> U, s: seq<T>, x: T)
    ensures Map(f, s + [x]) == Map(f, s) + [f(x)]
  {
  }
}
