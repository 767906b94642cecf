/**
 * Byte-string helpers shared by the mask model: whitespace, skipping and trimming it,
 * Go's bytewise string order (`sort.Strings`) and `strings.Join`.
 * A `string` here stands for Go's byte string: each char models one byte.
 */
module Text {

  /** ASCII whitespace: '\t', '\n', '\v', '\f', '\r' and ' '. */
  predicate IsSpace(c: char) {
    c == ' ' || '\t' <= c <= '\r'
  }

  /** The first index at or after `i` that is not whitespace (or |s|). */
  function SpacesEnd(s: string, i: nat): (j: nat)
    requires i <= |s|
    ensures i <= j <= |s|
    ensures j < |s| ==> !IsSpace(s[j])
    decreases |s| - i
  {
    if i < |s| && IsSpace(s[i]) then SpacesEnd(s, i + 1) else i
  }

  /** Everything `SpacesEnd` skips is whitespace. */
  lemma {:induction false} SpacesSkipped(s: string, i: nat)
    requires i <= |s|
    ensures forall k | i <= k < SpacesEnd(s, i) :: IsSpace(s[k])
    decreases |s| - i
  {
    if i < |s| && IsSpace(s[i]) {
      SpacesSkipped(s, i + 1);
    }
  }

  /** Index of the first non-space char of `t`, or |t| when `t` is all whitespace. */
  function TrimStart(t: string): (a: nat)
    ensures a <= |t|
    ensures a < |t| ==> !IsSpace(t[a])
  {
    SpacesEnd(t, 0)
  }

  /** One past the index of the last non-space char of `t[..b]`, looking no lower than `a`. */
  function TrimStop(t: string, a: nat, b: nat): (e: nat)
    requires a <= b <= |t|
    ensures a <= e <= b
    ensures e > a ==> !IsSpace(t[e - 1])
    decreases b
  {
    if b > a && IsSpace(t[b - 1]) then TrimStop(t, a, b - 1) else b
  }

  /** Everything `TrimStop` drops is whitespace. */
  lemma {:induction false} TrimStopDropsSpaces(t: string, a: nat, b: nat)
    requires a <= b <= |t|
    ensures forall k | TrimStop(t, a, b) <= k < b :: IsSpace(t[k])
    decreases b
  {
    if b > a && IsSpace(t[b - 1]) {
      TrimStopDropsSpaces(t, a, b - 1);
    }
  }

  /** `strings.TrimSpace`: `t` without its leading and trailing whitespace. */
  function TrimSpace(t: string): (r: string)
    ensures |r| <= |t|
    ensures r != [] ==> !IsSpace(r[0]) && !IsSpace(r[|r| - 1])
  {
    var a := TrimStart(t);
    var e := TrimStop(t, a, |t|);
    t[a..e]
  }

  /** `TrimSpace` removes whitespace only, and only at both ends. */
  lemma {:induction false} TrimSpaceRemovesSpaces(t: string)
    ensures exists a: nat, e: nat ::
              && a <= e <= |t| && TrimSpace(t) == t[a..e]
              && (forall k | 0 <= k < a :: IsSpace(t[k]))
              && (forall k | e <= k < |t| :: IsSpace(t[k]))
  {
    var a := TrimStart(t);
    var e := TrimStop(t, a, |t|);
    SpacesSkipped(t, 0);
    TrimStopDropsSpaces(t, a, |t|);
    assert TrimSpace(t) == t[a..e];
  }

  /** Go's `strings.Join`. */
  function Join(parts: seq<string>, sep: string): string {
    if |parts| == 0 then ""
    else if |parts| == 1 then parts[0]
    else parts[0] + sep + Join(parts[1..], sep)
  }

  /** Go's bytewise string comparison `a < b`, as used by `sort.Strings`. */
  predicate Less(a: string, b: string) {
    if |a| == 0 then |b| > 0
    else if |b| == 0 then false
    else a[0] < b[0] || (a[0] == b[0] && Less(a[1..], b[1..]))
  }

  lemma {:induction false} LessIrreflexive(a: string)
    ensures !Less(a, a)
  {
    if |a| > 0 {
      LessIrreflexive(a[1..]);
    }
  }

  lemma {:induction false} LessTransitive(a: string, b: string, c: string)
    requires Less(a, b) && Less(b, c)
    ensures Less(a, c)
  {
    if |a| > 0 && |b| > 0 && |c| > 0 && a[0] == b[0] == c[0] {
      LessTransitive(a[1..], b[1..], c[1..]);
    }
  }

  lemma {:induction false} LessTotal(a: string, b: string)
    ensures a == b || Less(a, b) || Less(b, a)
  {
    if |a| > 0 && |b| > 0 && a[0] == b[0] {
      LessTotal(a[1..], b[1..]);
      if a[1..] == b[1..] {
        assert a == [a[0]] + a[1..] && b == [b[0]] + b[1..];
      }
    }
  }

  lemma {:induction false} LessAsymmetric(a: string, b: string)
    requires Less(a, b)
    ensures !Less(b, a)
  {
    if Less(b, a) {
      LessTransitive(a, b, a);
      LessIrreflexive(a);
    }
  }

  /** Strictly ascending, hence also free of repetitions. */
  predicate StrictlySorted(ks: seq<string>) {
    forall i, j | 0 <= i < j < |ks| :: Less(ks[i], ks[j])
  }

  /** `k` is the least element of `ks`. */
  predicate IsLeast(k: string, ks: set<string>) {
    k in ks && forall k' | k' in ks :: k' == k || Less(k, k')
  }

  /** Every non-empty finite set of strings has a least element. */
  lemma {:induction false} LeastExists(ks: set<string>)
    requires ks != {}
    ensures exists k :: IsLeast(k, ks)
    decreases |ks|
  {
    var x :| x in ks;
    if ks - {x} == {} {
      assert ks == {x};
      assert IsLeast(x, ks);
    } else {
      LeastExists(ks - {x});
      var y :| IsLeast(y, ks - {x});
      LessTotal(x, y);
      if Less(x, y) {
        forall k' | k' in ks ensures k' == x || Less(x, k') {
          if k' != x && k' != y {
            LessTransitive(x, y, k');
          }
        }
        assert IsLeast(x, ks);
      } else {
        assert IsLeast(y, ks);
      }
    }
  }

  lemma {:induction false} LeastUnique(ks: set<string>)
    ensures forall k1, k2 | IsLeast(k1, ks) && IsLeast(k2, ks) :: k1 == k2
  {
    forall k1, k2 | IsLeast(k1, ks) && IsLeast(k2, ks) ensures k1 == k2 {
      if k1 != k2 {
        LessAsymmetric(k1, k2);
      }
    }
  }

  /** The keys of a map in `sort.Strings` order. */
  function SortedKeys(ks: set<string>): (r: seq<string>)
    ensures |r| == |ks|
    ensures forall k :: k in r <==> k in ks
    ensures StrictlySorted(r)
    decreases |ks|
  {
    if ks == {} then []
    else
      LeastExists(ks);
      LeastUnique(ks);
      var k :| IsLeast(k, ks);
      var rest := SortedKeys(ks - {k});
      ConsSorted(k, ks, rest);
      [k] + rest
  }

  /** The least key followed by the sorted rest is the sorted whole. */
  lemma {:induction false} ConsSorted(k: string, ks: set<string>, rest: seq<string>)
    requires IsLeast(k, ks) && |rest| == |ks - {k}| && StrictlySorted(rest)
    requires forall x :: x in rest <==> x in ks - {k}
    ensures |[k] + rest| == |ks|
    ensures forall x :: x in [k] + rest <==> x in ks
    ensures StrictlySorted([k] + rest)
  {
    forall i, j | 0 <= i < j < |[k] + rest| ensures Less(([k] + rest)[i], ([k] + rest)[j]) {
      if i == 0 {
        assert rest[j - 1] in ks - {k};
      }
    }
  }

  /** A strictly sorted sequence is determined by its elements, so `SortedKeys` is the one
    * ascending listing of the keys. */
  lemma {:induction false} SortedUnique(a: seq<string>, b: seq<string>)
    requires StrictlySorted(a) && StrictlySorted(b) && forall x :: x in a <==> x in b
    ensures a == b
    decreases |a|
  {
    SameElementsEmpty(a, b);
    if a != [] {
      if a[0] != b[0] {
        assert Less(a[0], b[0]) by {
          assert b[0] in a;
        }
        assert Less(b[0], a[0]) by {
          assert a[0] in b;
        }
        LessAsymmetric(a[0], b[0]);
      }
      assert a[0] == b[0];
      assert a == [a[0]] + a[1..] && b == [b[0]] + b[1..];
      LessIrreflexive(a[0]);
      forall x ensures x in a[1..] <==> x in b[1..] {
        if x in a[1..] {
          var i :| 0 <= i < |a[1..]| && a[1..][i] == x;
          assert Less(a[0], a[i + 1]) && x in a && x in b && x != b[0];
        }
        if x in b[1..] {
          var i :| 0 <= i < |b[1..]| && b[1..][i] == x;
          assert Less(b[0], b[i + 1]) && x in b && x in a && x != a[0];
        }
      }
      SortedUnique(a[1..], b[1..]);
    }
  }

  lemma {:induction false} SameElementsEmpty(a: seq<string>, b: seq<string>)
    requires forall x :: x in a <==> x in b
    ensures a == [] <==> b == []
  {
    if a != [] {
      assert a[0] in b;
    }
    if b != [] {
      assert b[0] in a;
    }
  }
}
