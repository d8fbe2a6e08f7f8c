/**
  String helpers the help renderer relies on: Go's string ordering and
  `sort.Strings`, the `%-*s` padding verb, `strings.Join`, and the widest
  string of a set (the running maximum the renderer's loops compute).
  Go measures strings in bytes; here a string is a sequence of characters.
 */
module Text {

  function Max(a: nat, b: nat): nat { if a < b then b else a }

  /** Go's `<=` on strings: lexicographic on the bytes, which for UTF-8 is code-point order. */
  predicate LessEq(a: string, b: string)
  {
    |a| == 0 || (|b| > 0 && (a[0] < b[0] || (a[0] == b[0] && LessEq(a[1..], b[1..]))))
  }

  lemma {:induction false} LessEqTotal(a: string, b: string)
    ensures LessEq(a, b) || LessEq(b, a)
  {
    if |a| > 0 && |b| > 0 && a[0] == b[0] {
      LessEqTotal(a[1..], b[1..]);
    }
  }

  lemma {:induction false} LessEqAntisymmetric(a: string, b: string)
    requires LessEq(a, b) && LessEq(b, a)
    ensures a == b
  {
    if |a| > 0 && |b| > 0 {
      LessEqAntisymmetric(a[1..], b[1..]);
      assert a == [a[0]] + a[1..] && b == [b[0]] + b[1..];
    }
  }

  lemma {:induction false} LessEqTransitive(a: string, b: string, c: string)
    requires LessEq(a, b) && LessEq(b, c)
    ensures LessEq(a, c)
  {
    if |a| > 0 && |b| > 0 && |c| > 0 && a[0] == b[0] && b[0] == c[0] {
      LessEqTransitive(a[1..], b[1..], c[1..]);
    }
  }

  predicate Sorted(s: seq<string>)
  {
    forall i, j :: 0 <= i < j < |s| ==> LessEq(s[i], s[j])
  }

  function Insert(x: string, s: seq<string>): (r: seq<string>)
    requires Sorted(s)
    ensures Sorted(r) && multiset(r) == multiset(s) + multiset{x}
  {
    if s == [] then [x]
    else if LessEq(x, s[0]) then
      assert forall j :: 0 < j < |s| ==> LessEq(x, s[j]) by {
        forall j | 0 < j < |s| ensures LessEq(x, s[j]) { LessEqTransitive(x, s[0], s[j]); }
      }
      [x] + s
    else
      var rest := Insert(x, s[1..]);
      assert s == [s[0]] + s[1..];
      assert LessEq(s[0], x) by { LessEqTotal(x, s[0]); }
      assert forall j :: 0 <= j < |rest| ==> LessEq(s[0], rest[j]) by {
        forall j | 0 <= j < |rest| ensures LessEq(s[0], rest[j]) {
          assert rest[j] in multiset(rest);
          if rest[j] != x {
            assert rest[j] in multiset(s[1..]);
            var k :| 0 <= k < |s[1..]| && s[1..][k] == rest[j];
            assert s[k + 1] == rest[j];
          }
        }
      }
      [s[0]] + rest
  }

  /** `sort.Strings`: an ordered permutation of its argument. */
  function Sort(s: seq<string>): (r: seq<string>)
    ensures Sorted(r) && multiset(r) == multiset(s)
  {
    if s == [] then []
    else
      assert s == [s[0]] + s[1..];
      Insert(s[0], Sort(s[1..]))
  }

  /** The head of an ordered sequence is below each of its elements. */
  lemma HeadIsLeast(a: seq<string>, x: string)
    requires Sorted(a) && x in multiset(a)
    ensures LessEq(a[0], x)
  {
    var j :| 0 <= j < |a| && a[j] == x;
    if j == 0 { LessEqTotal(x, x); }
  }

  /** Two ordered sequences with the same elements are equal: sorting forgets the input order. */
  lemma {:induction false} SortedUnique(a: seq<string>, b: seq<string>)
    requires Sorted(a) && Sorted(b) && multiset(a) == multiset(b)
    ensures a == b
  {
    if a == [] {
      assert |multiset(b)| == 0;
    } else {
      assert |b| == |a| by { assert |multiset(a)| == |a| && |multiset(b)| == |b|; }
      HeadIsLeast(b, a[0]);
      HeadIsLeast(a, b[0]);
      LessEqAntisymmetric(a[0], b[0]);
      var a', b' := a[1..], b[1..];
      assert a == [a[0]] + a' && b == [b[0]] + b';
      assert multiset(a) == multiset{a[0]} + multiset(a');
      assert multiset(b) == multiset{b[0]} + multiset(b');
      assert multiset(a') == multiset(a) - multiset{a[0]};
      assert multiset(b') == multiset(b) - multiset{b[0]};
      assert Sorted(a') && Sorted(b');
      SortedUnique(a', b');
    }
  }

  /** Every element of a set once, in some order: Go's map iteration order, left unspecified. */
  ghost function Enumerate(s: set<string>): (r: seq<string>)
    ensures multiset(r) == multiset(s)
  {
    if s == {} then []
    else
      var x :| x in s;
      assert multiset(s) == multiset{x} + multiset(s - {x}) by {
        assert s == {x} + (s - {x});
      }
      [x] + Enumerate(s - {x})
  }

  lemma MultisetRemove(s: set<string>, x: string)
    requires x in s
    ensures multiset(s - {x}) == multiset(s) - multiset{x}
  {
  }

  /** The keys of a map after `sort.Strings`: each key exactly once, in order. */
  ghost function SortedKeys(s: set<string>): (r: seq<string>)
    ensures Sorted(r) && multiset(r) == multiset(s)
    ensures forall i :: 0 <= i < |r| ==> r[i] in s
    ensures forall x :: x in s <==> x in r
  {
    var r := Sort(Enumerate(s));
    assert forall i :: 0 <= i < |r| ==> r[i] in multiset(r);
    assert forall x :: x in s ==> x in multiset(r);
    r
  }

  /** Sorting any enumeration of the same elements gives the same sequence. */
  lemma SortPermutation(a: seq<string>, b: seq<string>)
    requires multiset(a) == multiset(b)
    ensures Sort(a) == Sort(b)
  {
    SortedUnique(Sort(a), Sort(b));
  }

  function Spaces(n: nat): (r: string)
    ensures |r| == n && forall i :: 0 <= i < n ==> r[i] == ' '
  {
    if n == 0 then "" else Spaces(n - 1) + " "
  }

  /** Go's `%-*s`: left-justify `s` in a field of `width`, never truncating. */
  function PadRight(s: string, width: nat): (r: string)
    ensures |r| == Max(|s|, width)
    ensures r[..|s|] == s
    ensures forall i :: |s| <= i < |r| ==> r[i] == ' '
  {
    if |s| < width then s + Spaces(width - |s|) else s
  }

  /** `strings.Join`. */
  function Join(parts: seq<string>, sep: string): string
  {
    if parts == [] then ""
    else if |parts| == 1 then parts[0]
    else parts[0] + sep + Join(parts[1..], sep)
  }

  /** The length of the longest string of a set, 0 for the empty set. */
  ghost function MaxLen(ss: set<string>): (r: nat)
    ensures forall s :: s in ss ==> |s| <= r
    ensures ss == {} ==> r == 0
    ensures ss != {} ==> exists s :: s in ss && |s| == r
  {
    if ss == {} then 0
    else
      var x :| x in ss;
      Max(|x|, MaxLen(ss - {x}))
  }

  /** A bound that every element respects and some element (or, for no element, 0) reaches is MaxLen. */
  lemma MaxLenIs(ss: set<string>, w: nat)
    requires forall s :: s in ss ==> |s| <= w
    requires (ss == {} && w == 0) || exists s :: s in ss && |s| == w
    ensures MaxLen(ss) == w
  {
    if ss != {} {
      var s :| s in ss && |s| == w;
      var t :| t in ss && |t| == MaxLen(ss);
    }
  }

  lemma MaxLenUnion(a: set<string>, b: set<string>)
    ensures MaxLen(a + b) == Max(MaxLen(a), MaxLen(b))
  {
    var w := Max(MaxLen(a), MaxLen(b));
    if a + b != {} {
      if a != {} && MaxLen(b) <= MaxLen(a) {
        var s :| s in a && |s| == MaxLen(a);
        assert s in a + b;
      } else {
        var s :| s in b && |s| == MaxLen(b);
        assert s in a + b;
      }
    }
    MaxLenIs(a + b, w);
  }
}
