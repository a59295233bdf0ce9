/** Sequence operations that pandas provides on frames: drop_duplicates and boolean-mask selection. */
module Seqs {

  /** `s` is `t` with some elements left out, the rest in their original order. */
  ghost predicate Subsequence<T>(s: seq<T>, t: seq<T>)
    decreases |t|
  {
    if s == [] then true
    else if t == [] then false
    else (s[0] == t[0] && Subsequence(s[1..], t[1..])) || Subsequence(s, t[1..])
  }

  /** No element occurs twice. */
  ghost predicate Distinct<T>(s: seq<T>) {
    forall i, j :: 0 <= i < j < |s| ==> s[i] != s[j]
  }

  /** drop_duplicates with keep='first': the first occurrence of every element, in order. */
  function DropDuplicates<T(==)>(s: seq<T>): (r: seq<T>)
    ensures |r| <= |s|
  {
    if s == [] then []
    else
      var d := DropDuplicates(s[..|s| - 1]);
      if s[|s| - 1] in d then d else d + [s[|s| - 1]]
  }

  /** Dropping duplicates keeps every value and repeats none. */
  lemma {:induction false} DropDuplicatesSpec<T>(s: seq<T>)
    ensures forall x :: x in DropDuplicates(s) <==> x in s
    ensures Distinct(DropDuplicates(s))
  {
    if s != [] {
      var init := s[..|s| - 1];
      DropDuplicatesSpec(init);
      assert s == init + [s[|s| - 1]];
    }
  }

  /** The left-to-right scan that drop_duplicates performs: keep an element unless it was
      already seen, and remember it. */
  function KeepFirst<T(==)>(s: seq<T>, seen: set<T>): seq<T> {
    if s == [] then []
    else if s[0] in seen then KeepFirst(s[1..], seen)
    else [s[0]] + KeepFirst(s[1..], seen + {s[0]})
  }

  /** Scanning one more element appends it exactly when it is new. */
  lemma {:induction false} KeepFirstAppend<T>(s: seq<T>, x: T, seen: set<T>)
    ensures KeepFirst(s + [x], seen) == KeepFirst(s, seen) + (if x in seen || x in s then [] else [x])
  {
    if s == [] {
      assert [x][1..] == [];
    } else {
      assert (s + [x])[1..] == s[1..] + [x];
      if s[0] in seen {
        KeepFirstAppend(s[1..], x, seen);
      } else {
        KeepFirstAppend(s[1..], x, seen + {s[0]});
      }
      assert x in s <==> x == s[0] || x in s[1..];
    }
  }

  /** drop_duplicates keeps the first occurrence of each value, in input order: it is the
      left-to-right scan from an empty set of seen values. */
  lemma {:induction false} DropDuplicatesKeepsFirst<T>(s: seq<T>)
    ensures DropDuplicates(s) == KeepFirst(s, {})
  {
    if s != [] {
      var init := s[..|s| - 1];
      DropDuplicatesKeepsFirst(init);
      DropDuplicatesSpec(init);
      KeepFirstAppend(init, s[|s| - 1], {});
      assert s == init + [s[|s| - 1]];
    }
  }

  /** A sequence that already repeats nothing is left as it is. */
  lemma {:induction false} DropDuplicatesOfDistinct<T>(s: seq<T>)
    requires Distinct(s)
    ensures DropDuplicates(s) == s
  {
    if s != [] {
      var init := s[..|s| - 1];
      DropDuplicatesOfDistinct(init);
      assert s[|s| - 1] !in init;
      assert init + [s[|s| - 1]] == s;
    }
  }

  /** The elements of a subsequence are elements of the whole. */
  lemma {:induction false} SubsequenceMembers<T>(s: seq<T>, t: seq<T>)
    requires Subsequence(s, t)
    ensures forall x :: x in s ==> x in t
    decreases |t|
  {
    if s != [] {
      if s[0] == t[0] && Subsequence(s[1..], t[1..]) {
        SubsequenceMembers(s[1..], t[1..]);
        assert s == [s[0]] + s[1..] && t == [t[0]] + t[1..];
      } else {
        SubsequenceMembers(s, t[1..]);
        assert t == [t[0]] + t[1..];
      }
    }
  }

  /** A subsequence of a sequence without repetitions has none either. */
  lemma {:induction false} SubsequenceDistinct<T>(s: seq<T>, t: seq<T>)
    requires Subsequence(s, t) && Distinct(t)
    ensures Distinct(s)
    decreases |t|
  {
    if s != [] {
      assert Distinct(t[1..]) by {
        forall i, j | 0 <= i < j < |t[1..]| ensures t[1..][i] != t[1..][j] {
          assert t[1..][i] == t[i + 1] && t[1..][j] == t[j + 1];
        }
      }
      if s[0] == t[0] && Subsequence(s[1..], t[1..]) {
        SubsequenceDistinct(s[1..], t[1..]);
        SubsequenceMembers(s[1..], t[1..]);
        forall j | 0 < j < |s| ensures s[0] != s[j] {
          assert s[j] == s[1..][j - 1];
          assert s[j] in t[1..];
          var k :| 0 <= k < |t[1..]| && t[1..][k] == s[j];
          assert t[k + 1] == s[j];
        }
      } else {
        SubsequenceDistinct(s, t[1..]);
      }
    }
  }
}
