/**
 The default order of `Array.prototype.sort`, which compares the decimal spellings
 of numbers (`[...set].sort()` at packages/sctp/src/sctp.ts:332, 800 and 864).

 `JsSort` is that enumeration of a set; `Enumerates` is any enumeration at all.
 */
module StringOrder {

  /** The decimal digits of a number, most significant first. */
  function Decimal(n: nat): (d: seq<nat>)
    ensures d != []
    ensures forall i :: 0 <= i < |d| ==> d[i] < 10
    decreases n
  {
    if n < 10 then [n] else Decimal(n / 10) + [n % 10]
  }

  /** Code-unit order of strings: the first difference decides, a prefix comes first. */
  predicate LexLess(a: seq<nat>, b: seq<nat>) {
    if b == [] then false
    else if a == [] then true
    else if a[0] != b[0] then a[0] < b[0]
    else LexLess(a[1..], b[1..])
  }

  predicate StringLess(a: nat, b: nat) {
    LexLess(Decimal(a), Decimal(b))
  }

  lemma {:induction false} LexTrichotomy(a: seq<nat>, b: seq<nat>)
    ensures LexLess(a, b) || LexLess(b, a) || a == b
    ensures !(LexLess(a, b) && LexLess(b, a))
    ensures !LexLess(a, a)
  {
    if a != [] && b != [] {
      LexTrichotomy(a[1..], b[1..]);
      LexTrichotomy(a[1..], a[1..]);
      if a[0] == b[0] && a[1..] == b[1..] {
        assert a == [a[0]] + a[1..] && b == [b[0]] + b[1..];
      }
    } else if a != [] {
      LexTrichotomy(a[1..], a[1..]);
    }
  }

  lemma {:induction false} LexTransitive(a: seq<nat>, b: seq<nat>, c: seq<nat>)
    requires LexLess(a, b) && LexLess(b, c)
    ensures LexLess(a, c)
  {
    if a != [] && a[0] == b[0] && b[0] == c[0] {
      LexTransitive(a[1..], b[1..], c[1..]);
    }
  }

  /** Between spellings of one length the last digit only breaks ties. */
  lemma {:induction false} LexAppend(a: seq<nat>, x: nat, b: seq<nat>, y: nat)
    requires |a| == |b|
    ensures LexLess(a + [x], b + [y]) <==> LexLess(a, b) || (a == b && x < y)
  {
    if a == [] {
      assert a + [x] == [x] && b + [y] == [y];
      assert [x][1..] == [] && [y][1..] == [];
    } else {
      assert (a + [x])[1..] == a[1..] + [x] && (b + [y])[1..] == b[1..] + [y];
      LexAppend(a[1..], x, b[1..], y);
      if a[0] == b[0] && a[1..] == b[1..] {
        assert a == [a[0]] + a[1..] && b == [b[0]] + b[1..];
      }
    }
  }

  lemma DecimalLength(n: nat)
    ensures |Decimal(n)| == 1 <==> n < 10
  {
    if n >= 10 {
      assert |Decimal(n)| == |Decimal(n / 10)| + 1;
    }
  }

  lemma {:induction false} DecimalInjective(a: nat, b: nat)
    requires Decimal(a) == Decimal(b)
    ensures a == b
    decreases a
  {
    DecimalLength(a);
    DecimalLength(b);
    if a >= 10 && b >= 10 {
      var da, db := Decimal(a / 10), Decimal(b / 10);
      assert Decimal(a)[..|Decimal(a)| - 1] == da && Decimal(b)[..|Decimal(b)| - 1] == db;
      assert Decimal(a)[|Decimal(a)| - 1] == a % 10;
      DecimalInjective(a / 10, b / 10);
    }
  }

  /** Numbers with equally many digits are string-ordered as they are numerically. */
  lemma {:induction false} SameLengthIsNumeric(a: nat, b: nat)
    requires |Decimal(a)| == |Decimal(b)|
    ensures StringLess(a, b) <==> a < b
    decreases a
  {
    DecimalLength(a);
    DecimalLength(b);
    if a >= 10 && b >= 10 {
      LexAppend(Decimal(a / 10), a % 10, Decimal(b / 10), b % 10);
      SameLengthIsNumeric(a / 10, b / 10);
      if Decimal(a / 10) == Decimal(b / 10) {
        DecimalInjective(a / 10, b / 10);
      }
    } else {
      assert Decimal(a) == [] + [a] && Decimal(b) == [] + [b];
      LexAppend([], a, [], b);
    }
  }

  /** A longer spelling is not a later one: 10 sorts before 9. */
  lemma TenBeforeNine()
    ensures StringLess(10, 9)
  {
    assert Decimal(1) == [1];
    assert Decimal(10) == [1, 0];
  }

  predicate IsLeast(m: nat, s: set<nat>) {
    m in s && forall y :: y in s && y != m ==> StringLess(m, y)
  }

  lemma {:induction false} LeastExists(s: set<nat>)
    requires s != {}
    ensures exists m :: IsLeast(m, s)
    decreases |s|
  {
    var x :| x in s;
    if s == {x} {
      assert IsLeast(x, s);
    } else {
      var rest := s - {x};
      assert rest != {};
      LeastExists(rest);
      var m :| IsLeast(m, rest);
      LexTrichotomy(Decimal(x), Decimal(m));
      if StringLess(x, m) {
        forall y | y in s && y != x ensures StringLess(x, y) {
          if y != m {
            assert y in rest && StringLess(m, y);
            LexTransitive(Decimal(x), Decimal(m), Decimal(y));
          }
        }
        assert IsLeast(x, s);
      } else {
        if Decimal(x) == Decimal(m) {
          DecimalInjective(x, m);
        }
        assert IsLeast(m, s);
      }
    }
  }

  lemma LeastIsUnique(a: nat, b: nat, s: set<nat>)
    requires IsLeast(a, s) && IsLeast(b, s)
    ensures a == b
  {
    LexTrichotomy(Decimal(a), Decimal(b));
  }

  function Least(s: set<nat>): (m: nat)
    requires s != {}
    ensures IsLeast(m, s)
  {
    LeastExists(s);
    assert forall a, b :: IsLeast(a, s) && IsLeast(b, s) ==> a == b by {
      forall a, b | IsLeast(a, s) && IsLeast(b, s) ensures a == b {
        LeastIsUnique(a, b, s);
      }
    }
    var m :| m in s && IsLeast(m, s);
    m
  }

  ghost predicate Distinct(q: seq<nat>) {
    forall i, j :: 0 <= i < j < |q| ==> q[i] != q[j]
  }

  /** `q` lists every element of `s` exactly once, in some order. */
  ghost predicate Enumerates(q: seq<nat>, s: set<nat>) {
    Distinct(q) && forall x :: x in q <==> x in s
  }

  ghost predicate StringSorted(q: seq<nat>) {
    forall i, j :: 0 <= i < j < |q| ==> StringLess(q[i], q[j])
  }

  ghost predicate Ascending(q: seq<nat>) {
    forall i, j :: 0 <= i < j < |q| ==> q[i] < q[j]
  }

  /** `[...s].sort()`. */
  function JsSort(s: set<nat>): (q: seq<nat>)
    ensures Enumerates(q, s)
    ensures StringSorted(q)
    decreases |s|
  {
    if s == {} then []
    else
      var m := Least(s);
      var rest := JsSort(s - {m});
      assert forall x :: x in rest <==> x in s && x != m;
      [m] + rest
  }

  ghost predicate Precedes(q: seq<nat>, a: nat, b: nat) {
    exists i, j :: 0 <= i < j < |q| && q[i] == a && q[j] == b
  }

  lemma PrecedesIsStringLess(q: seq<nat>, a: nat, b: nat)
    requires StringSorted(q) && a in q && b in q
    ensures Precedes(q, a, b) <==> StringLess(a, b)
  {
    var i :| 0 <= i < |q| && q[i] == a;
    var j :| 0 <= j < |q| && q[j] == b;
    LexTrichotomy(Decimal(a), Decimal(b));
    if i < j {
      assert Precedes(q, a, b);
    }
  }

  /** Where every element has the same number of digits the sort is numeric. */
  lemma JsSortNumeric(s: set<nat>)
    requires forall a, b :: a in s && b in s ==> |Decimal(a)| == |Decimal(b)|
    ensures Ascending(JsSort(s))
  {
    var q := JsSort(s);
    forall i, j | 0 <= i < j < |q| ensures q[i] < q[j] {
      assert q[i] in s && q[j] in s;
      SameLengthIsNumeric(q[i], q[j]);
    }
  }
}
