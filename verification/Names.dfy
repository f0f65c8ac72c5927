/** Row names and the byte-wise order that `std::string::operator<` gives them. */
module Names {

  predicate Less(a: string, b: string) {
    b != "" && (a == "" || a[0] < b[0] || (a[0] == b[0] && Less(a[1..], b[1..])))
  }

  lemma {:induction false} LessIrreflexive(a: string)
    ensures !Less(a, a)
  {
    if a != "" {
      LessIrreflexive(a[1..]);
    }
  }

  lemma {:induction false} LessTransitive(a: string, b: string, c: string)
    requires Less(a, b) && Less(b, c)
    ensures Less(a, c)
  {
    if a != "" && a[0] == b[0] == c[0] {
      LessTransitive(a[1..], b[1..], c[1..]);
    }
  }

  lemma {:induction false} LessTotal(a: string, b: string)
    ensures Less(a, b) || a == b || Less(b, a)
  {
    if a != "" && b != "" && a[0] == b[0] {
      LessTotal(a[1..], b[1..]);
      assert a == [a[0]] + a[1..] && b == [b[0]] + b[1..];
    }
  }

  /** The strings agree before position `k`, and there `a` ends or has the smaller character. */
  predicate FirstDifference(a: string, b: string, k: int) {
    && 0 <= k <= |a| && k < |b| && a[..k] == b[..k]
    && (k == |a| || a[k] < b[k])
  }

  lemma {:induction false} LessIsLexicographic(a: string, b: string)
    ensures Less(a, b) <==> exists k :: FirstDifference(a, b, k)
    decreases |a|
  {
    if Less(a, b) {
      if a == "" || a[0] < b[0] {
        assert FirstDifference(a, b, 0);
      } else {
        LessIsLexicographic(a[1..], b[1..]);
        var k :| FirstDifference(a[1..], b[1..], k);
        assert a[..k + 1] == [a[0]] + a[1..][..k] && b[..k + 1] == [b[0]] + b[1..][..k];
        assert FirstDifference(a, b, k + 1);
      }
    } else if k :| FirstDifference(a, b, k) {
      if k > 0 {
        assert a[0] == a[..k][0] == b[..k][0] == b[0];
        assert a[1..][..k - 1] == a[..k][1..] && b[1..][..k - 1] == b[..k][1..];
        assert FirstDifference(a[1..], b[1..], k - 1);
        LessIsLexicographic(a[1..], b[1..]);
      }
    }
  }

  ghost predicate Increasing(names: seq<string>) {
    forall i, j {:trigger Less(names[i], names[j])} :: 0 <= i < j < |names| ==> Less(names[i], names[j])
  }

  lemma IncreasingDistinct(names: seq<string>)
    requires Increasing(names)
    ensures forall i, j :: 0 <= i < j < |names| ==> names[i] != names[j]
  {
    forall i, j | 0 <= i < j < |names|
      ensures names[i] != names[j]
    {
      assert Less(names[i], names[j]);
      LessIrreflexive(names[i]);
    }
  }

  lemma IncreasingInsert(names: seq<string>, it: nat, name: string)
    requires Increasing(names) && it <= |names|
    requires forall i :: 0 <= i < it ==> Less(names[i], name)
    requires forall i :: it <= i < |names| ==> Less(name, names[i])
    ensures Increasing(names[..it] + [name] + names[it..])
  {
    var after := names[..it] + [name] + names[it..];
    forall i, j | 0 <= i < j < |after|
      ensures Less(after[i], after[j])
    {
      var a, b := if i < it then i else i - 1, if j < it then j else j - 1;
      if i != it && j != it {
        assert Less(names[a], names[b]);
      }
    }
  }

  lemma IncreasingRemove(names: seq<string>, it: nat)
    requires Increasing(names) && it < |names|
    ensures Increasing(names[..it] + names[it + 1..])
    ensures names[it] !in names[..it] + names[it + 1..]
  {
    var after := names[..it] + names[it + 1..];
    IncreasingDistinct(names);
    forall i, j | 0 <= i < j < |after|
      ensures Less(after[i], after[j])
    {
      assert Less(names[if i < it then i else i + 1], names[if j < it then j else j + 1]);
    }
  }

  ghost predicate IsLeast(m: string, s: set<string>) {
    m in s && forall x :: x in s ==> x == m || Less(m, x)
  }

  lemma {:induction false} LeastExists(s: set<string>)
    requires s != {}
    ensures exists m :: IsLeast(m, s)
  {
    var m :| m in s;
    if s == {m} {
      assert IsLeast(m, s);
    } else {
      LeastExists(s - {m});
      var n :| IsLeast(n, s - {m});
      LessTotal(m, n);
      if Less(n, m) {
        assert IsLeast(n, s);
      } else {
        forall x | x in s
          ensures x == m || Less(m, x)
        {
          if x != m && x != n {
            LessTransitive(m, n, x);
          }
        }
        assert IsLeast(m, s);
      }
    }
  }

  /** The elements of a set in increasing order. */
  ghost function Sorted(s: set<string>): seq<string> {
    if s == {} then []
    else
      LeastExists(s);
      var m :| IsLeast(m, s);
      [m] + Sorted(s - {m})
  }

  /** There is only one increasing enumeration of a set. */
  lemma {:induction false} SortedUnique(names: seq<string>, s: set<string>)
    requires Increasing(names)
    requires forall x :: x in s <==> x in names
    ensures Sorted(s) == names
    decreases |names|
  {
    if names == [] {
      assert s == {};
    } else {
      assert names[0] in s;
      var m := Sorted(s)[0];
      var k :| 0 <= k < |names| && names[k] == m;
      if k > 0 {
        assert Less(m, names[0]) && Less(names[0], m);
        LessTransitive(m, names[0], m);
        LessIrreflexive(m);
      }
      IncreasingDistinct(names);
      assert names == [m] + names[1..];
      SortedUnique(names[1..], s - {m});
    }
  }

  lemma {:induction false} SortedElements(s: set<string>)
    ensures forall x :: x in Sorted(s) <==> x in s
    ensures Increasing(Sorted(s))
  {
    if s != {} {
      var m := Sorted(s)[0];
      SortedElements(s - {m});
      assert Sorted(s) == [m] + Sorted(s - {m});
    }
  }
}
