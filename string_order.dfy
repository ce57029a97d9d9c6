/** Rust's `Vec<String>::sort` followed by `dedup`, on the ordering `Ord`
    gives `String`: lexicographic, comparing characters by code point. */
module StringOrder {

  /** `a < b` for Rust strings. */
  predicate Below(a: string, b: string)
    decreases |a|
  {
    if a == [] then b != []
    else b != [] && (a[0] < b[0] || (a[0] == b[0] && Below(a[1..], b[1..])))
  }

  lemma {:induction false} BelowIrreflexive(a: string)
    ensures !Below(a, a)
  {
    if a != [] {
      BelowIrreflexive(a[1..]);
    }
  }

  lemma {:induction false} BelowTransitive(a: string, b: string, c: string)
    requires Below(a, b) && Below(b, c)
    ensures Below(a, c)
    decreases |a|
  {
    if a != [] && a[0] == b[0] && b[0] == c[0] {
      BelowTransitive(a[1..], b[1..], c[1..]);
    }
  }

  lemma {:induction false} BelowTotal(a: string, b: string)
    requires a != b
    ensures Below(a, b) || Below(b, a)
    decreases |a|
  {
    if a != [] && b != [] && a[0] == b[0] {
      assert a == [a[0]] + a[1..] && b == [b[0]] + b[1..];
      BelowTotal(a[1..], b[1..]);
    }
  }

  lemma BelowAsymmetric(a: string, b: string)
    requires Below(a, b)
    ensures !Below(b, a)
  {
    if Below(b, a) {
      BelowTransitive(a, b, a);
      BelowIrreflexive(a);
    }
  }

  /** `a <= b` and `b <= c` give `a <= c`. */
  lemma AtMostTransitive(a: string, b: string, c: string)
    requires !Below(b, a) && !Below(c, b)
    ensures !Below(c, a)
  {
    if Below(c, a) {
      if a != b {
        BelowTotal(a, b);
        BelowTransitive(c, a, b);
      }
    }
  }

  /** `a < b` and `b <= c` give `a < c`. */
  lemma BelowAtMost(a: string, b: string, c: string)
    requires Below(a, b) && !Below(c, b)
    ensures Below(a, c)
  {
    if b != c {
      BelowTotal(b, c);
      BelowTransitive(a, b, c);
    }
  }

  /** Ascending, repeats allowed: what `sort` produces. */
  ghost predicate Sorted(s: seq<string>)
  {
    forall i, j :: 0 <= i < j < |s| ==> !Below(s[j], s[i])
  }

  /** Ascending without repeats: what `dedup` after `sort` produces. */
  ghost predicate StrictlySorted(s: seq<string>)
  {
    forall i, j :: 0 <= i < j < |s| ==> Below(s[i], s[j])
  }

  /** A string below every element of an ascending sequence can lead it. */
  lemma StrictlySortedCons(x: string, s: seq<string>)
    requires StrictlySorted(s)
    requires forall j :: 0 <= j < |s| ==> Below(x, s[j])
    ensures StrictlySorted([x] + s)
  {
  }

  /** Inserts `x` into a sorted sequence, before the first element not below it. */
  function Insert(x: string, s: seq<string>): (r: seq<string>)
    requires Sorted(s)
    ensures Sorted(r)
    ensures multiset(r) == multiset(s) + multiset{x}
    ensures forall y :: y in r ==> y == x || y in s
  {
    if s == [] then [x]
    else if !Below(s[0], x) then
      assert Sorted([x] + s) by {
        forall j | 0 < j < |s| + 1 ensures !Below(([x] + s)[j], x) {
          if j > 1 {
            AtMostTransitive(x, s[0], s[j - 1]);
          }
        }
      }
      [x] + s
    else
      var rest := Insert(x, s[1..]);
      assert s == [s[0]] + s[1..];
      assert Sorted([s[0]] + rest) by {
        forall j | 0 <= j < |rest| ensures !Below(rest[j], s[0]) {
          if rest[j] == x {
            BelowAsymmetric(s[0], x);
          } else {
            assert rest[j] in s[1..];
          }
        }
      }
      [s[0]] + rest
  }

  /** `sort`: the same strings, rearranged into ascending order. */
  function Sort(s: seq<string>): (r: seq<string>)
    ensures Sorted(r)
    ensures multiset(r) == multiset(s)
  {
    if s == [] then []
    else
      assert s == [s[0]] + s[1..];
      Insert(s[0], Sort(s[1..]))
  }

  /** `dedup`: each run of equal adjacent strings collapsed to one. */
  function Dedup(s: seq<string>): (r: seq<string>)
    ensures |r| <= |s|
    ensures forall x :: x in r <==> x in s
    ensures Sorted(s) ==> StrictlySorted(r)
  {
    if |s| <= 1 then s
    else if s[0] == s[1] then
      assert s == [s[0]] + s[1..];
      Dedup(s[1..])
    else
      var rest := Dedup(s[1..]);
      assert s == [s[0]] + s[1..];
      assert Sorted(s) ==> StrictlySorted([s[0]] + rest) by {
        if Sorted(s) {
          assert Sorted(s[1..]);
          BelowTotal(s[0], s[1]);
          forall j | 0 <= j < |rest| ensures Below(s[0], rest[j]) {
            assert rest[j] in s[1..];
            var k :| 0 <= k < |s[1..]| && s[1..][k] == rest[j];
            if k > 0 {
              assert !Below(s[k + 1], s[1]);
            } else {
              BelowIrreflexive(s[1]);
            }
            BelowAtMost(s[0], s[1], rest[j]);
          }
        }
      }
      [s[0]] + rest
  }

  /** There is only one strictly ascending arrangement of a set of strings. */
  lemma {:induction false} StrictlySortedUnique(a: seq<string>, b: seq<string>)
    requires StrictlySorted(a) && StrictlySorted(b)
    requires forall x :: x in a <==> x in b
    ensures a == b
  {
    SameEmptiness(a, b);
    if a != [] {
      HeadIsLeast(a, b[0]);
      HeadIsLeast(b, a[0]);
      if a[0] != b[0] {
        BelowAsymmetric(a[0], b[0]);
      }
      forall x ensures x in a[1..] <==> x in b[1..] {
        TailMembers(a, x);
        TailMembers(b, x);
      }
      StrictlySortedUnique(a[1..], b[1..]);
      assert a == [a[0]] + a[1..] && b == [b[0]] + b[1..];
    }
  }

  lemma SameEmptiness(a: seq<string>, b: seq<string>)
    requires forall x :: x in a <==> x in b
    ensures a == [] <==> b == []
  {
    if a != [] {
      assert a[0] in a;
    }
    if b != [] {
      assert b[0] in b;
    }
  }

  /** The head of a strictly ascending sequence is below every other element. */
  lemma HeadIsLeast(a: seq<string>, x: string)
    requires StrictlySorted(a) && x in a
    ensures x == a[0] || Below(a[0], x)
  {
    var k :| 0 <= k < |a| && a[k] == x;
  }

  /** In a strictly ascending sequence the head does not recur. */
  lemma TailMembers(a: seq<string>, x: string)
    requires StrictlySorted(a) && a != []
    ensures x in a[1..] <==> x in a && x != a[0]
  {
    if x in a[1..] {
      var k :| 0 <= k < |a[1..]| && a[1..][k] == x;
      assert Below(a[0], a[k + 1]);
      BelowIrreflexive(a[0]);
    }
    if x in a && x != a[0] {
      var k :| 0 <= k < |a| && a[k] == x;
      assert a[1..][k - 1] == x;
    }
  }

  /** `sort` then `dedup` yields the strings of the input, each once, in
      ascending order. */
  lemma SortDedupCharacterised(s: seq<string>)
    ensures StrictlySorted(Dedup(Sort(s)))
    ensures forall x :: x in Dedup(Sort(s)) <==> x in s
  {
    forall x ensures x in Sort(s) <==> x in s {
      assert x in Sort(s) <==> x in multiset(Sort(s));
      assert x in s <==> x in multiset(s);
    }
  }

  /** `sort` then `dedup` depends only on which strings occur: reordering
      or repeating them changes nothing. */
  lemma SortDedupCanonical(s: seq<string>, t: seq<string>)
    requires forall x :: x in s <==> x in t
    ensures Dedup(Sort(s)) == Dedup(Sort(t))
  {
    SortDedupCharacterised(s);
    SortDedupCharacterised(t);
    StrictlySortedUnique(Dedup(Sort(s)), Dedup(Sort(t)));
  }
}
