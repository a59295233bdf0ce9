/** Python's ordering of `str` values: lexicographic by code point, a proper prefix first. */
module Text {

  /** `a <= b` as Python compares two strings. */
  predicate StrLe(a: string, b: string)
    decreases |a|
  {
    if a == [] then true
    else if b == [] then false
    else a[0] < b[0] || (a[0] == b[0] && StrLe(a[1..], b[1..]))
  }

  /** Any two strings are comparable. */
  lemma {:induction false} StrLeTotal(a: string, b: string)
    ensures StrLe(a, b) || StrLe(b, a)
    decreases |a|
  {
    if a != [] && b != [] && a[0] == b[0] {
      StrLeTotal(a[1..], b[1..]);
    }
  }

  lemma {:induction false} StrLeTransitive(a: string, b: string, c: string)
    requires StrLe(a, b) && StrLe(b, c)
    ensures StrLe(a, c)
    decreases |a|
  {
    if a != [] && b != [] && c != [] && a[0] == b[0] && b[0] == c[0] {
      StrLeTransitive(a[1..], b[1..], c[1..]);
    }
  }

  lemma {:induction false} StrLeAntisymmetric(a: string, b: string)
    requires StrLe(a, b) && StrLe(b, a)
    ensures a == b
    decreases |a|
  {
    if a != [] {
      StrLeAntisymmetric(a[1..], b[1..]);
      assert a == [a[0]] + a[1..] && b == [b[0]] + b[1..];
    }
  }

  /** `sep.join(parts)`. */
  function Join(parts: seq<string>, sep: string): string {
    if parts == [] then ""
    else if |parts| == 1 then parts[0]
    else parts[0] + sep + Join(parts[1..], sep)
  }

  /** `part` occurs in `s` starting at position `i`. */
  predicate OccursAt(s: string, part: string, i: int) {
    0 <= i && i + |part| <= |s| && s[i..i + |part|] == part
  }

  /** Every part occurs in the joined string. */
  lemma {:induction false} JoinContainsParts(parts: seq<string>, sep: string, k: nat)
    requires k < |parts|
    ensures exists i :: OccursAt(Join(parts, sep), parts[k], i)
  {
    var joined := Join(parts, sep);
    if |parts| == 1 {
      assert OccursAt(joined, parts[k], 0);
    } else if k == 0 {
      assert joined == parts[0] + (sep + Join(parts[1..], sep));
      assert OccursAt(joined, parts[k], 0);
    } else {
      var rest := Join(parts[1..], sep);
      JoinContainsParts(parts[1..], sep, k - 1);
      assert parts[1..][k - 1] == parts[k];
      var i :| OccursAt(rest, parts[k], i);
      var offset := |parts[0]| + |sep|;
      assert joined == (parts[0] + sep) + rest;
      assert joined[offset + i..offset + i + |parts[k]|] == rest[i..i + |parts[k]|];
      assert OccursAt(joined, parts[k], offset + i);
    }
  }
}
