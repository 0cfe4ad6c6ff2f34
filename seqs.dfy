/** Sequence helpers shared by the modules of this model. */
module Seqs {

  /** No element occurs twice. */
  predicate NoDup<T(==)>(s: seq<T>) {
    forall i, j :: 0 <= i < j < |s| ==> s[i] != s[j]
  }

  /** `r` can be obtained from `s` by deleting elements (order is kept). */
  predicate SubsequenceOf<T(==)>(r: seq<T>, s: seq<T>)
    decreases |s|
  {
    if r == [] then true
    else if s == [] then false
    else if r[0] == s[0] then SubsequenceOf(r[1..], s[1..])
    else SubsequenceOf(r, s[1..])
  }

  /**
   * `acc` followed by the elements of `s` that are not in it yet, each once,
   * in order of first occurrence: what adding `s` to an insertion-ordered
   * set holding `acc` leaves.
   */
  function AddNew<T(==)>(acc: seq<T>, s: seq<T>): seq<T>
    decreases |s|
  {
    if s == [] then acc
    else
      var r := AddNew(acc, s[..|s| - 1]);
      if s[|s| - 1] in r then r else r + [s[|s| - 1]]
  }

  /** Dropping the elements of `xs` shortens `s` exactly when `s` holds one of them. */
  lemma {:induction false} WithoutShrinks<T>(s: seq<T>, xs: set<T>)
    ensures |Without(s, xs)| < |s| <==> exists x :: x in s && x in xs
  {
    if s != [] {
      WithoutShrinks(s[1..], xs);
      if s[0] !in xs {
        assert Without(s, xs) == [s[0]] + Without(s[1..], xs);
        if exists x :: x in s && x in xs {
          var x :| x in s && x in xs;
          assert x in s[1..];
        }
      } else {
        WithoutFacts(s[1..], xs);
        assert Without(s, xs) == Without(s[1..], xs);
      }
    }
  }

  /** The elements of `s`, as a set. */
  function Members<T>(s: seq<T>): set<T> {
    set x | x in s
  }

  /** The elements of a prefix one longer are those of the prefix and the next element. */
  lemma MembersSnoc<T>(s: seq<T>, i: nat)
    requires i < |s|
    ensures Members(s[..i + 1]) == Members(s[..i]) + {s[i]}
  {
    assert s[..i + 1] == s[..i] + [s[i]];
  }

  /** Adding `s` to a duplicate-free `acc` lengthens it exactly when `s` holds something `acc` lacks. */
  lemma AddNewGrows<T>(acc: seq<T>, s: seq<T>)
    requires NoDup(acc)
    ensures |AddNew(acc, s)| > |acc| <==> exists x :: x in s && x !in acc
  {
    AddNewFacts(acc, s);
    var r := AddNew(acc, s);
    if |r| > |acc| {
      var x := r[|acc|];
      assert x in r;
    } else {
      assert r == acc;
    }
  }

  /** `s` with every later occurrence of an element dropped, first occurrences kept in order. */
  function Dedup<T(==)>(s: seq<T>): (r: seq<T>)
    ensures forall i :: 0 <= i < |r| ==> r[i] in s
  {
    AddNewFrom(s);
    AddNew([], s)
  }

  /** Every element of `AddNew([], s)`, by position, comes from `s`. */
  lemma AddNewFrom<T>(s: seq<T>)
    ensures forall i :: 0 <= i < |AddNew([], s)| ==> AddNew([], s)[i] in s
  {
    AddNewFacts([], s);
    var d := AddNew([], s);
    forall i | 0 <= i < |d|
      ensures d[i] in s
    {
      assert d[i] in d;
    }
  }

  /** Adding one more element. */
  lemma AddNewSnoc<T>(acc: seq<T>, s: seq<T>, x: T)
    ensures AddNew(acc, s + [x]) == if x in AddNew(acc, s) then AddNew(acc, s) else AddNew(acc, s) + [x]
  {
    assert (s + [x])[..|s|] == s;
  }

  /** Adding the next element of `s`. */
  lemma AddNewNext<T>(acc: seq<T>, s: seq<T>, j: nat)
    requires j < |s|
    ensures AddNew(acc, s[..j + 1]) == if s[j] in AddNew(acc, s[..j]) then AddNew(acc, s[..j]) else AddNew(acc, s[..j]) + [s[j]]
  {
    assert s[..j + 1][..j] == s[..j];
  }

  /** Adding `a` then `b` is adding `a + b`. */
  lemma {:induction false} AddNewAppend<T>(acc: seq<T>, a: seq<T>, b: seq<T>)
    ensures AddNew(acc, a + b) == AddNew(AddNew(acc, a), b)
    decreases |b|
  {
    if b == [] {
      assert a + b == a;
    } else {
      var n := |b| - 1;
      assert a + b == (a + b[..n]) + [b[n]];
      assert b == b[..n] + [b[n]];
      AddNewAppend(acc, a, b[..n]);
      AddNewSnoc(acc, a + b[..n], b[n]);
      AddNewSnoc(AddNew(acc, a), b[..n], b[n]);
    }
  }

  /**
   * The result keeps `acc` as a prefix, holds exactly the elements of `acc`
   * and `s`, and repeats none when `acc` repeats none.
   */
  lemma {:induction false} AddNewFacts<T>(acc: seq<T>, s: seq<T>)
    ensures acc <= AddNew(acc, s)
    ensures forall x :: x in AddNew(acc, s) <==> x in acc || x in s
    ensures NoDup(acc) ==> NoDup(AddNew(acc, s))
    decreases |s|
  {
    if s != [] {
      var n := |s| - 1;
      AddNewFacts(acc, s[..n]);
      assert s == s[..n] + [s[n]];
    }
  }

  /** `Dedup` repeats nothing and keeps every element. */
  lemma DedupFacts<T>(s: seq<T>)
    ensures NoDup(Dedup(s)) && forall x :: x in Dedup(s) <==> x in s
  {
    AddNewFacts([], s);
  }

  /** Number of occurrences of `x` in `s`. */
  function Count<T(==)>(s: seq<T>, x: T): nat {
    multiset(s)[x]
  }

  /** Elements of `s` that are not in `xs`, in order. */
  function Without<T(==)>(s: seq<T>, xs: set<T>): (r: seq<T>)
  {
    if s == [] then [] else (if s[0] in xs then [] else [s[0]]) + Without(s[1..], xs)
  }

  /** `Without` keeps exactly the elements of `s` outside `xs`, and never lengthens `s`. */
  lemma {:induction false} WithoutFacts<T>(s: seq<T>, xs: set<T>)
    ensures forall y :: y in Without(s, xs) <==> y in s && y !in xs
    ensures |Without(s, xs)| <= |s|
  {
    if s != [] {
      WithoutFacts(s[1..], xs);
      assert s == [s[0]] + s[1..];
    }
  }

  /** Appending one element to a subsequence's source keeps it a subsequence. */
  lemma {:induction false} SubsequenceAppend<T>(r: seq<T>, s: seq<T>, x: T)
    requires SubsequenceOf(r, s)
    ensures SubsequenceOf(r, s + [x])
    ensures SubsequenceOf(r + [x], s + [x])
    decreases |s|
  {
    if r == [] {
      SubsequenceOfNil(s + [x]);
      SubsequenceOfSingle(s, x);
      assert r + [x] == [x];
    } else {
      assert s != [];
      assert (s + [x])[0] == s[0] && (s + [x])[1..] == s[1..] + [x];
      assert (r + [x])[0] == r[0] && (r + [x])[1..] == r[1..] + [x];
      if r[0] == s[0] {
        SubsequenceAppend(r[1..], s[1..], x);
      } else {
        SubsequenceAppend(r, s[1..], x);
      }
    }
  }

  lemma {:induction false} SubsequenceOfNil<T>(s: seq<T>)
    ensures SubsequenceOf([], s)
  {
  }

  lemma {:induction false} SubsequenceOfSingle<T>(s: seq<T>, x: T)
    ensures SubsequenceOf([x], s + [x])
    decreases |s|
  {
    if s != [] {
      assert (s + [x])[1..] == s[1..] + [x];
      if s[0] != x {
        SubsequenceOfSingle(s[1..], x);
      } else {
        assert ([x])[1..] == [];
      }
    }
  }

  /** A subsequence only holds elements of its source. */
  lemma {:induction false} SubsequenceMembers<T>(r: seq<T>, s: seq<T>)
    requires SubsequenceOf(r, s)
    ensures forall x :: x in r ==> x in s
    decreases |s|
  {
    if r != [] && s != [] {
      if r[0] == s[0] {
        SubsequenceMembers(r[1..], s[1..]);
        assert forall x :: x in r ==> x == r[0] || x in r[1..];
      } else {
        SubsequenceMembers(r, s[1..]);
      }
    }
  }

  /** A subsequence of `t` is also one of `[x] + t`. */
  lemma {:induction false} SubsequenceCons<T>(r: seq<T>, t: seq<T>, x: T)
    requires SubsequenceOf(r, t)
    ensures SubsequenceOf(r, [x] + t)
    decreases |t|, 1
  {
    assert ([x] + t)[1..] == t;
    if r != [] && r[0] == x {
      SubsequenceDropHead(r, t);
    }
  }

  /** Dropping the first element of a non-empty subsequence keeps it a subsequence. */
  lemma {:induction false} SubsequenceDropHead<T>(r: seq<T>, t: seq<T>)
    requires r != [] && SubsequenceOf(r, t)
    ensures SubsequenceOf(r[1..], t)
    decreases |t|, 0
  {
    assert t != [];
    assert t == [t[0]] + t[1..];
    if r[0] == t[0] {
      SubsequenceCons(r[1..], t[1..], t[0]);
    } else {
      SubsequenceDropHead(r, t[1..]);
      SubsequenceCons(r[1..], t[1..], t[0]);
    }
  }

  /** Dropping elements keeps a sequence free of repetitions. */
  lemma {:induction false} WithoutNoDup<T>(s: seq<T>, xs: set<T>)
    requires NoDup(s)
    ensures NoDup(Without(s, xs))
  {
    if s != [] {
      var rest := Without(s[1..], xs);
      assert NoDup(s[1..]) by {
        forall i, j | 0 <= i < j < |s[1..]|
          ensures s[1..][i] != s[1..][j]
        {
          assert s[1..][i] == s[i + 1] && s[1..][j] == s[j + 1];
        }
      }
      WithoutNoDup(s[1..], xs);
      WithoutFacts(s[1..], xs);
      assert s[0] !in s[1..] by {
        forall i | 0 <= i < |s[1..]|
          ensures s[1..][i] != s[0]
        {
          assert s[1..][i] == s[i + 1];
        }
      }
      if s[0] !in xs {
        var r := [s[0]] + rest;
        forall i, j | 0 <= i < j < |r|
          ensures r[i] != r[j]
        {
          if i == 0 {
            assert r[j] == rest[j - 1] && rest[j - 1] in rest;
          } else {
            assert r[i] == rest[i - 1] && r[j] == rest[j - 1];
          }
        }
      } else {
        assert Without(s, xs) == rest;
      }
    }
  }

  /** Dropping `xs` and then `ys` drops `xs + ys`. */
  lemma {:induction false} WithoutUnion<T>(s: seq<T>, xs: set<T>, ys: set<T>)
    ensures Without(Without(s, xs), ys) == Without(s, xs + ys)
  {
    if s != [] {
      WithoutUnion(s[1..], xs, ys);
      var rest := Without(s[1..], xs);
      if s[0] in xs {
        assert Without(s, xs) == rest;
      } else {
        var w := [s[0]] + rest;
        assert Without(s, xs) == w;
        assert w[0] == s[0] && w[1..] == rest;
        assert Without(w, ys) == (if s[0] in ys then [] else [s[0]]) + Without(rest, ys);
      }
    }
  }

  /** Dropping values that do not occur changes nothing. */
  lemma {:induction false} WithoutAbsent<T>(s: seq<T>, xs: set<T>)
    requires forall x :: x in xs ==> x !in s
    ensures Without(s, xs) == s
  {
    if s != [] {
      WithoutAbsent(s[1..], xs);
      assert s == [s[0]] + s[1..];
    }
  }

  /** Adding the elements of a duplicate-free sequence to nothing gives it back. */
  lemma {:induction false} AddNewNoDup<T>(s: seq<T>)
    requires NoDup(s)
    ensures AddNew([], s) == s
    decreases |s|
  {
    if s != [] {
      var n := |s| - 1;
      var p := s[..n];
      assert NoDup(p) by {
        forall i, j | 0 <= i < j < |p|
          ensures p[i] != p[j]
        {
          assert p[i] == s[i] && p[j] == s[j];
        }
      }
      AddNewNoDup(p);
      assert s[n] !in p by {
        forall i | 0 <= i < |p|
          ensures p[i] != s[n]
        {
          assert p[i] == s[i];
        }
      }
      assert p + [s[n]] == s;
    }
  }

  /** Dropping a set that covers every element of `s` leaves nothing. */
  lemma {:induction false} WithoutCovered<T>(s: seq<T>, t: seq<T>)
    requires Members(s) <= Members(t)
    ensures Without(s, Members(t)) == []
  {
    if s != [] {
      assert s[0] in Members(s);
      assert Members(s[1..]) <= Members(s) by {
        forall x | x in Members(s[1..]) ensures x in Members(s) {
          assert x in s[1..];
        }
      }
      WithoutCovered(s[1..], t);
    }
  }

  /** Deduplicating keeps the same elements. */
  lemma DedupMembers<T>(s: seq<T>)
    ensures Members(Dedup(s)) == Members(s)
  {
    DedupFacts(s);
  }
}
