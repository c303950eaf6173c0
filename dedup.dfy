/**
 * The HashSet<string>.Add test both playlist writers use: a name is written
 * the first time it is seen and skipped afterwards, so what is written is
 * the input with later repetitions removed, in first-seen order.
 */
module SeenOrder {

  ghost predicate Distinct<T>(xs: seq<T>)
  {
    forall i, j :: 0 <= i < j < |xs| ==> xs[i] != xs[j]
  }

  /** The set of elements of xs, built as a HashSet is, one Add per element. */
  function Elements<T>(xs: seq<T>): set<T>
  {
    if xs == [] then {} else Elements(xs[..|xs| - 1]) + {xs[|xs| - 1]}
  }

  lemma {:induction false} ElementsMember<T>(xs: seq<T>, x: T)
    ensures x in Elements(xs) <==> x in xs
  {
    if xs != [] {
      ElementsMember(xs[..|xs| - 1], x);
      assert xs == xs[..|xs| - 1] + [xs[|xs| - 1]];
    }
  }

  lemma ElementsAppend<T>(xs: seq<T>, x: T)
    ensures Elements(xs + [x]) == Elements(xs) + {x}
  {
    assert (xs + [x])[..|xs|] == xs;
  }

  /** Regrouping a concatenation; stated apart so that callers do not reason about it element by element. */
  lemma AppendAssoc<T>(a: seq<T>, b: seq<T>, c: seq<T>)
    ensures a + b + c == a + (b + c)
  {
  }

  /** A prefix one element longer. */
  lemma PrefixStep<T>(s: seq<T>, k: nat)
    requires k < |s|
    ensures s[..k + 1] == s[..k] + [s[k]]
  {
  }

  /** xs without the repetitions of an element already seen earlier in xs. */
  function Dedup<T(==)>(xs: seq<T>): (r: seq<T>)
    ensures forall k :: 0 <= k < |r| ==> r[k] in xs
    ensures |r| <= |xs|
  {
    if xs == [] then []
    else
      var front := Dedup(xs[..|xs| - 1]);
      var x := xs[|xs| - 1];
      if x in xs[..|xs| - 1] then front else front + [x]
  }

  /** Dedup keeps every element, and only elements of xs. */
  lemma {:induction false} DedupMember<T>(xs: seq<T>, x: T)
    ensures x in Dedup(xs) <==> x in xs
  {
    if xs != [] {
      var init := xs[..|xs| - 1];
      DedupMember(init, x);
      assert xs == init + [xs[|xs| - 1]];
    }
  }

  /** Dedup never keeps two copies. */
  lemma {:induction false} DedupIsDistinct<T>(xs: seq<T>)
    ensures Distinct(Dedup(xs))
  {
    if xs != [] {
      var init := xs[..|xs| - 1];
      var x := xs[|xs| - 1];
      DedupIsDistinct(init);
      DedupMember(init, x);
    }
  }

  /** Position of the first occurrence of x in xs. */
  function FirstIndex<T(==)>(xs: seq<T>, x: T): (i: nat)
    requires x in xs
    ensures i < |xs| && xs[i] == x && x !in xs[..i]
  {
    if xs[0] == x then 0
    else
      var i := 1 + FirstIndex(xs[1..], x);
      assert xs[..i] == [xs[0]] + xs[1..][..i - 1];
      i
  }

  /** A name seen before adds nothing. */
  lemma DedupSeen<T>(xs: seq<T>, x: T)
    requires x in xs
    ensures Dedup(xs + [x]) == Dedup(xs)
  {
    assert (xs + [x])[..|xs|] == xs;
  }

  /** A name not seen before is appended. */
  lemma DedupNew<T>(xs: seq<T>, x: T)
    requires x !in xs
    ensures Dedup(xs + [x]) == Dedup(xs) + [x]
  {
    assert (xs + [x])[..|xs|] == xs;
  }

  /** FirstIndex is the one position holding x with no x before it. */
  lemma FirstIndexUnique<T>(xs: seq<T>, x: T, i: nat)
    requires i < |xs| && xs[i] == x && x !in xs[..i]
    ensures FirstIndex(xs, x) == i
  {
    var j := FirstIndex(xs, x);
    assert forall k :: 0 <= k < i ==> xs[..i][k] == xs[k];
    assert forall k :: 0 <= k < j ==> xs[..j][k] == xs[k];
  }

  lemma FirstIndexExtend<T>(xs: seq<T>, y: T, x: T)
    requires x in xs
    ensures FirstIndex(xs + [y], x) == FirstIndex(xs, x)
  {
    var i := FirstIndex(xs, x);
    assert (xs + [y])[..i] == xs[..i];
    FirstIndexUnique(xs + [y], x, i);
  }

  /** Dedup keeps elements in the order of their first occurrence. */
  lemma {:induction false} DedupFirstSeenOrder<T>(xs: seq<T>)
    ensures forall i, j :: 0 <= i < j < |Dedup(xs)| ==> FirstIndex(xs, Dedup(xs)[i]) < FirstIndex(xs, Dedup(xs)[j])
  {
    if xs != [] {
      var init := xs[..|xs| - 1];
      var x := xs[|xs| - 1];
      assert xs == init + [x];
      DedupFirstSeenOrder(init);
      var front := Dedup(init);
      var r := Dedup(xs);
      DedupMember(init, x);
      assert r[..|front|] == front && (|r| == |front| || (|r| == |front| + 1 && r[|front|] == x && x !in init));
      forall i, j | 0 <= i < j < |r|
        ensures FirstIndex(xs, r[i]) < FirstIndex(xs, r[j])
      {
        assert r[i] == front[i];
        FirstIndexExtend(init, x, front[i]);
        if j < |front| {
          assert r[j] == front[j];
          FirstIndexExtend(init, x, front[j]);
          assert FirstIndex(init, front[i]) < FirstIndex(init, front[j]);
        } else {
          assert r[j] == x;
          assert xs[..|init|] == init;
          FirstIndexUnique(xs, x, |init|);
          assert FirstIndex(init, front[i]) < |init|;
        }
      }
    }
  }

  /** Dedup keeps exactly one copy of each distinct element. */
  lemma {:induction false} DedupCard<T>(xs: seq<T>)
    ensures |Dedup(xs)| == |Elements(xs)|
  {
    if xs != [] {
      var init := xs[..|xs| - 1];
      var x := xs[|xs| - 1];
      DedupCard(init);
      ElementsMember(init, x);
      var e := Elements(init);
      if x in init {
        assert e + {x} == e;
      } else {
        assert (e + {x}) - {x} == e;
        assert |e + {x}| == |e| + 1;
      }
    }
  }

  /** A sequence without repetitions passes the seen-name test unchanged. */
  lemma {:induction false} DedupDistinct<T>(xs: seq<T>)
    requires Distinct(xs)
    ensures Dedup(xs) == xs
  {
    if xs != [] {
      var init := xs[..|xs| - 1];
      assert Distinct(init);
      DedupDistinct(init);
    }
  }

  /** Deduplicating twice changes nothing. */
  lemma DedupIdempotent<T>(xs: seq<T>)
    ensures Dedup(Dedup(xs)) == Dedup(xs)
  {
    DedupIsDistinct(xs);
    DedupDistinct(Dedup(xs));
  }
}
